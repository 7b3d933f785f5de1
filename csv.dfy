/**
 * One record of comma-separated values as section 2 of RFC 4180 defines it,
 * read the way Go's encoding/csv Reader.Read does with its default settings:
 * a field is either plain (no double quote anywhere in it) or enclosed in double
 * quotes, where a doubled quote stands for one quote; anything else is an error.
 */
module Csv {
  import opened Wrappers

  /** Offset of the first comma in `s`, or |s| when there is none. */
  function FieldEnd(s: string): (i: nat)
    ensures i <= |s|
    ensures i < |s| ==> s[i] == ','
    ensures forall j :: 0 <= j < i ==> s[j] != ','
  {
    if s == [] || s[0] == ',' then 0 else 1 + FieldEnd(s[1..])
  }

  /**
   * The inside of a quoted field, given the text after its opening quote:
   * the field's value and the text after its closing quote, or None when the
   * closing quote is missing.
   */
  function Quoted(s: string): (r: Option<(string, string)>)
    ensures r.Some? ==> |r.value.1| < |s|
  {
    if s == [] then None
    else if s[0] == '"' then
      if |s| > 1 && s[1] == '"' then
        match Quoted(s[2..])
        case None => None
        case Some(p) => Some((['"'] + p.0, p.1))
      else Some(([], s[1..]))
    else
      match Quoted(s[1..])
      case None => None
      case Some(p) => Some(([s[0]] + p.0, p.1))
  }

  /** The fields of a record, read from a field boundary to the end of the input. */
  function Fields(s: string): (r: Option<seq<string>>)
    ensures r.Some? ==> |r.value| >= 1
    decreases |s|
  {
    if s != [] && s[0] == '"' then
      match Quoted(s[1..])
      case None => None
      case Some(p) =>
        if p.1 == [] then Some([p.0])
        else if p.1[0] == ',' then
          match Fields(p.1[1..])
          case None => None
          case Some(fs) => Some([p.0] + fs)
        else None
    else
      var i := FieldEnd(s);
      if '"' in s[..i] then None
      else if i == |s| then Some([s[..i]])
      else
        match Fields(s[i + 1..])
        case None => None
        case Some(fs) => Some([s[..i]] + fs)
  }

  /** csv.Reader.Read on one line: an empty line is end of input (io.EOF), an error here. */
  function ReadRecord(line: string): (r: Option<seq<string>>)
    ensures line == [] ==> r == None
    ensures r.Some? ==> |r.value| >= 1
  {
    if line == [] then None else Fields(line)
  }

  /** A field written in quoted form, every inner quote doubled. */
  function Escape(f: string): string
  {
    if f == [] then []
    else if f[0] == '"' then "\"\"" + Escape(f[1..])
    else [f[0]] + Escape(f[1..])
  }

  function Quote(f: string): string
  {
    "\"" + Escape(f) + "\""
  }

  /** A record written with every field quoted. */
  function Encode(fs: seq<string>): string
  {
    if fs == [] then []
    else if |fs| == 1 then Quote(fs[0])
    else Quote(fs[0]) + "," + Encode(fs[1..])
  }

  lemma {:induction false} QuotedEscape(f: string, rest: string)
    requires rest == [] || rest[0] != '"'
    ensures Quoted(Escape(f) + "\"" + rest) == Some((f, rest))
  {
    var s := Escape(f) + "\"" + rest;
    if f == [] {
      assert s == "\"" + rest;
      assert s[1..] == rest;
    } else if f[0] == '"' {
      QuotedEscape(f[1..], rest);
      assert s == "\"\"" + (Escape(f[1..]) + "\"" + rest);
      assert s[2..] == Escape(f[1..]) + "\"" + rest;
      assert ['"'] + f[1..] == f;
    } else {
      QuotedEscape(f[1..], rest);
      assert s == [f[0]] + (Escape(f[1..]) + "\"" + rest);
      assert s[1..] == Escape(f[1..]) + "\"" + rest;
      assert [f[0]] + f[1..] == f;
    }
  }

  /** Reading back a record written with every field quoted gives the same fields. */
  lemma {:induction false} ReadEncode(fs: seq<string>)
    requires fs != []
    ensures ReadRecord(Encode(fs)) == Some(fs)
  {
    var s := Encode(fs);
    if |fs| == 1 {
      QuotedEscape(fs[0], []);
      assert s == "\"" + (Escape(fs[0]) + "\"" + []);
      assert s[1..] == Escape(fs[0]) + "\"" + [];
      assert [fs[0]] == fs;
    } else {
      var tail := "," + Encode(fs[1..]);
      QuotedEscape(fs[0], tail);
      assert s == "\"" + (Escape(fs[0]) + "\"" + tail);
      assert s[1..] == Escape(fs[0]) + "\"" + tail;
      assert tail[1..] == Encode(fs[1..]);
      ReadEncode(fs[1..]);
      assert [fs[0]] + fs[1..] == fs;
    }
  }

  /** Plain fields: no comma or quote inside a field. */
  predicate Plain(fs: seq<string>)
  {
    forall i :: 0 <= i < |fs| ==> ',' !in fs[i] && '"' !in fs[i]
  }

  function JoinCommas(fs: seq<string>): string
  {
    if fs == [] then []
    else if |fs| == 1 then fs[0]
    else fs[0] + "," + JoinCommas(fs[1..])
  }

  /** Plain fields joined by commas read back as the same fields. */
  lemma {:induction false} FieldsOfPlain(fs: seq<string>)
    requires fs != [] && Plain(fs)
    ensures Fields(JoinCommas(fs)) == Some(fs)
  {
    var f := fs[0];
    if |fs| == 1 {
      FieldsPlainLast(f);
      assert [f] == fs;
    } else {
      FieldsOfPlain(fs[1..]);
      FieldsPlainHead(f, JoinCommas(fs[1..]));
      assert JoinCommas(fs) == f + "," + JoinCommas(fs[1..]);
      assert [f] + fs[1..] == fs;
    }
  }

  /** A plain field on its own is one field. */
  lemma FieldsPlainLast(f: string)
    requires ',' !in f && '"' !in f
    ensures Fields(f) == Some([f])
  {
    FieldEndOfPlain(f, []);
    assert f + [] == f;
    assert f[..|f|] == f;
  }

  /** A plain field `f` and a comma at the front: the fields are `f` and then those of `rest`. */
  lemma FieldsPlainHead(f: string, rest: string)
    requires ',' !in f && '"' !in f
    ensures Fields(f + "," + rest) ==
      match Fields(rest)
      case None => None
      case Some(fs) => Some([f] + fs)
  {
    var s := f + "," + rest;
    FieldEndOfPlain(f, "," + rest);
    assert s == f + ("," + rest);
    assert s[..|f|] == f;
    assert s[|f| + 1..] == rest;
  }

  lemma FieldEndOfPlain(f: string, rest: string)
    requires ',' !in f && '"' !in f
    requires rest == [] || rest[0] == ','
    ensures FieldEnd(f + rest) == |f|
    ensures f != [] ==> (f + rest)[0] != '"'
  {
    var s := f + rest;
    assert forall j :: 0 <= j < |f| ==> s[j] == f[j];
    assert |f| < |s| ==> s[|f|] == ',';
  }
}
