/**
 * The key layout the repositories write into the key-value store. `coll` is
 * the collection name, `pk` the name of the primary-key field, `v` the
 * primary-key value as text, `s` a secondary field's value as text.
 */
module Keys {
  import opened Text

  /** `coll.name.{v}`: the primary index entry of a document. */
  function IndexKey(coll: string, name: string, v: string): string
  {
    coll + "." + name + ".{" + v + "}"
  }

  /** `coll.sk.{s}.{v}`: a secondary index entry. */
  function SecondaryKey(coll: string, sk: string, s: string, v: string): string
  {
    coll + "." + sk + ".{" + s + "}.{" + v + "}"
  }

  /** `coll.payload.pk.{v}`: where the key-value repository keeps the document's bytes. */
  function PayloadKey(coll: string, pk: string, v: string): string
  {
    coll + ".payload." + pk + ".{" + v + "}"
  }

  /** `coll.key.{cond`: the prefix a lookup by field scans; the brace is left open. */
  function ScanPrefix(coll: string, key: string, cond: string): string
  {
    coll + "." + key + ".{" + cond
  }

  /** `coll.{v}`: the prefix of every field entry of one document. */
  function ObjectPrefix(coll: string, v: string): string
  {
    coll + ".{" + v + "}"
  }

  /** `coll.{v}.name`: one top-level field of a document, stored on its own. */
  function FieldKey(coll: string, v: string, name: string): string
  {
    ObjectPrefix(coll, v) + "." + name
  }

  /** `coll.versions.pk.{v}`: the key whose revisions list a document's versions. */
  function VersionsKey(coll: string, pk: string, v: string): string
  {
    coll + ".versions." + pk + ".{" + v + "}"
  }

  /** `coll.pk.{v}.<tx>`: the sorted set holding the field keys of one version. */
  function VersionSet(coll: string, pk: string, v: string, txText: string): string
  {
    coll + "." + pk + ".{" + v + "}." + txText
  }

  /**
   * A lookup by field scans a string-prefix match on the value: every index
   * entry (primary or secondary) whose value starts with `cond` has the
   * scanned prefix.
   */
  lemma IndexKeysMatchPrefix(coll: string, name: string, value: string, cond: string, v: string)
    requires HasPrefix(value, cond)
    ensures HasPrefix(IndexKey(coll, name, value), ScanPrefix(coll, name, cond))
    ensures HasPrefix(SecondaryKey(coll, name, value, v), ScanPrefix(coll, name, cond))
  {
    var p := coll + "." + name + ".{";
    assert value == cond + value[|cond|..];
    assert IndexKey(coll, name, value) == p + cond + (value[|cond|..] + "}");
    assert SecondaryKey(coll, name, value, v) == p + cond + (value[|cond|..] + "}.{" + v + "}");
    assert ScanPrefix(coll, name, cond) == p + cond;
  }

  /**
   * Conversely, when the condition holds no closing brace, only index
   * entries whose value starts with the condition have the scanned prefix.
   */
  lemma PrefixMatchesOnlyValues(coll: string, name: string, value: string, cond: string)
    requires '}' !in cond
    requires HasPrefix(IndexKey(coll, name, value), ScanPrefix(coll, name, cond))
    ensures HasPrefix(value, cond)
  {
    var p := coll + "." + name + ".{";
    var key := IndexKey(coll, name, value);
    assert key == p + (value + "}");
    assert ScanPrefix(coll, name, cond) == p + cond;
    assert forall i :: 0 <= i < |cond| ==> cond[i] == key[|p| + i];
    assert key[|p| + |value|] == '}';
    assert |cond| <= |value|;
    assert value[..|cond|] == key[|p|..|p| + |cond|] == cond;
  }

  /** Stripping the document's prefix from a field key gives back the field name. */
  lemma FieldNameRoundTrip(coll: string, v: string, name: string)
    ensures HasPrefix(FieldKey(coll, v, name), ObjectPrefix(coll, v))
    ensures TrimPrefix(FieldKey(coll, v, name), ObjectPrefix(coll, v) + ".") == name
  {
    TrimPrefixInverts(ObjectPrefix(coll, v) + ".", name);
    assert FieldKey(coll, v, name) == ObjectPrefix(coll, v) + ("." + name);
  }

  /** The versions key never lies under a document's object prefix. */
  lemma VersionsKeyNotUnderObject(coll: string, pk: string, v: string)
    ensures !HasPrefix(VersionsKey(coll, pk, v), ObjectPrefix(coll, v))
  {
    var i := |coll| + 1;
    assert ObjectPrefix(coll, v)[i] == '{';
    assert VersionsKey(coll, pk, v)[i] == 'v';
  }

  /** No index entry under a field whose name does not start with `{` lies under a document's object prefix. */
  lemma IndexKeysNotUnderObject(coll: string, name: string, s: string, v: string)
    requires name == [] || name[0] != '{'
    ensures !HasPrefix(IndexKey(coll, name, v), ObjectPrefix(coll, v))
    ensures !HasPrefix(SecondaryKey(coll, name, s, v), ObjectPrefix(coll, v))
  {
    var i := |coll| + 1;
    assert ObjectPrefix(coll, v)[i] == '{';
    assert IndexKey(coll, name, v)[i] == if name == [] then '.' else name[0];
    assert SecondaryKey(coll, name, s, v)[i] == if name == [] then '.' else name[0];
  }

  /** A primary index entry is never the versions key. */
  lemma IndexKeyNotVersionsKey(coll: string, pk: string, v: string)
    ensures IndexKey(coll, pk, v) != VersionsKey(coll, pk, v)
  {
    assert |VersionsKey(coll, pk, v)| == |IndexKey(coll, pk, v)| + 9;
  }

  /** Distinct field names give distinct field keys. */
  lemma FieldKeyInjective(coll: string, v: string, a: string, b: string)
    requires FieldKey(coll, v, a) == FieldKey(coll, v, b)
    ensures a == b
  {
    FieldNameRoundTrip(coll, v, a);
    FieldNameRoundTrip(coll, v, b);
  }

  /** Distinct primary-key values give distinct payload keys. */
  lemma PayloadKeyInjective(coll: string, pk: string, v: string, w: string)
    requires PayloadKey(coll, pk, v) == PayloadKey(coll, pk, w)
    ensures v == w
  {
    var p := coll + ".payload." + pk + ".{";
    assert PayloadKey(coll, pk, v) == p + v + "}";
    assert PayloadKey(coll, pk, w) == p + w + "}";
    assert v == PayloadKey(coll, pk, v)[|p|..|p| + |v|];
  }

  /** A primary index entry is never the payload entry it points at. */
  lemma IndexKeyNotPayloadKey(coll: string, pk: string, v: string)
    ensures IndexKey(coll, pk, v) != PayloadKey(coll, pk, v)
  {
    assert |PayloadKey(coll, pk, v)| == |IndexKey(coll, pk, v)| + 8;
  }

  /** The set a version's fields go into is named by the primary index key and the version's text. */
  lemma VersionSetExtendsIndexKey(coll: string, pk: string, v: string, txText: string)
    ensures VersionSet(coll, pk, v, txText) == IndexKey(coll, pk, v) + "." + txText
  {
  }
}
