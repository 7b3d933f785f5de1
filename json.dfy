/**
 * The JSON documents the repositories index, as the JSON path library
 * (gjson) reads them and as the JSON writer library (sjson) rebuilds them.
 * Both libraries are outside this model: a document is what a lookup by path
 * and an iteration over the top-level members report, and a rebuilt object is
 * the sequence of members written into it.
 */
module Json {
  import opened Wrappers

  /** A point in time (the library's Time() conversion, the clock, a parsed log timestamp). */
  datatype Instant = Instant(unixNanos: int)

  /**
   * One value found in a document: its raw JSON text (Raw), its String()
   * rendering (a string's contents without quotes, other values as their text),
   * and its Int() and Time() conversions.
   */
  datatype Value = Value(raw: string, str: string, asInt: int, asTime: Instant)

  datatype Member = Member(name: string, value: Value)

  /**
   * A parsed document: what a lookup by path finds (Get(path).Exists()) and
   * the top-level members in document order (ForEach).
   */
  datatype Document = Document(paths: map<string, Value>, members: seq<Member>)

  /** Get(path): the value at `path`, None when it does not exist. */
  function Get(doc: Document, path: string): (r: Option<Value>)
    ensures r.Some? <==> path in doc.paths
  {
    if path in doc.paths then Some(doc.paths[path]) else None
  }

  /** Every name in `names` is a path of the document. */
  predicate AllPresent(doc: Document, names: seq<string>)
  {
    forall j :: 0 <= j < |names| ==> names[j] in doc.paths
  }

  /** What is written into a rebuilt object: raw JSON text (SetRaw) or a string value (Set). */
  datatype Fragment = RawJson(text: string) | Str(s: string)

  /** An object rebuilt member by member, in the order its members were first written. */
  type Object = seq<(string, Fragment)>

  function Lookup(obj: Object, name: string): Option<Fragment>
  {
    if obj == [] then None
    else if obj[0].0 == name then Some(obj[0].1)
    else Lookup(obj[1..], name)
  }

  /** Set / SetRaw with a plain member name: overwrite the member if present, else append it. */
  function Put(obj: Object, name: string, f: Fragment): (r: Object)
    ensures |r| == |obj| || |r| == |obj| + 1
  {
    if obj == [] then [(name, f)]
    else if obj[0].0 == name then [(name, f)] + obj[1..]
    else [obj[0]] + Put(obj[1..], name, f)
  }

  /**
   * Set / SetRaw as the repositories call them: an empty path is refused
   * with the library's "path cannot be empty", any other path is taken as a
   * plain member name and put.
   */
  function SetPath(obj: Object, path: string, f: Fragment): (r: Result<Object, string>)
    ensures r.Err? <==> path == []
    ensures r.Ok? ==> Lookup(r.value, path) == Some(f)
    ensures r.Ok? ==> forall n :: n != path ==> Lookup(r.value, n) == Lookup(obj, n)
  {
    if path == [] then Err("path cannot be empty")
    else
      PutLookup(obj, path, f);
      Ok(Put(obj, path, f))
  }

  /** After a Put, the member put reads back as written and every other member is as before. */
  lemma {:induction false} PutLookup(obj: Object, name: string, f: Fragment)
    ensures Lookup(Put(obj, name, f), name) == Some(f)
    ensures forall n :: n != name ==> Lookup(Put(obj, name, f), n) == Lookup(obj, n)
  {
    if obj != [] && obj[0].0 != name {
      PutLookup(obj[1..], name, f);
    }
  }
}
