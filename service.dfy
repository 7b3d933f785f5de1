/**
 * AuditService.Run (pkg/service/service.go): read a line, parse it, write
 * the parser's output to the repository, until the source ends, fails, or
 * a write fails. Lines the parser rejects are skipped.
 */
module Service {
  import opened Wrappers

  /** How a line source ends: io.EOF, or any other read error. */
  datatype ReadEnd = Eof | ReadFailure(message: string)

  /** A lineProvider: the lines it still holds, then how it ends. */
  class LineSource {
    var pending: seq<string>
    const end: ReadEnd

    constructor (lines: seq<string>, end: ReadEnd)
      ensures pending == lines && this.end == end
    {
      pending := lines;
      this.end := end;
    }

    /** ReadLine: the next line, or once none is left, how the source ends. */
    method ReadLine() returns (r: Result<string, ReadEnd>)
      modifies this
      ensures old(pending) == [] ==> r == Err(end) && pending == []
      ensures old(pending) != [] ==> r == Ok(old(pending)[0]) && pending == old(pending)[1..]
    {
      if pending == [] {
        r := Err(end);
      } else {
        r := Ok(pending[0]);
        pending := pending[1..];
      }
    }
  }

  /**
   * The repository side of the service: every WriteBytes call is recorded
   * with its payload and its answer, a transaction id or an error text.
   */
  class Store {
    var written: seq<string>
    var answers: seq<Result<nat, string>>

    constructor ()
      ensures written == [] && answers == []
    {
      written := [];
      answers := [];
    }

    /** WriteBytes: the repository's answer is not determined by the model. */
    method WriteBytes(b: string) returns (r: Result<nat, string>)
      modifies this
      ensures written == old(written) + [b] && answers == old(answers) + [r]
    {
      written := written + [b];
      if * {
        r := Ok(|written|);
      } else {
        r := Err("write failed");
      }
      answers := answers + [r];
    }
  }

  /** A LineParser: a line's JSON payload, or why the line is not an audit entry. */
  type Parser = string -> Result<string, string>

  /** The payloads of the lines the parser accepts, in the order of the lines. */
  function Outputs(lines: seq<string>, parse: Parser): seq<string>
  {
    if lines == [] then []
    else
      var rest := Outputs(lines[..|lines| - 1], parse);
      match parse(lines[|lines| - 1])
      case Ok(b) => rest + [b]
      case Err(_) => rest
  }

  /** The answers of one run's writes end with a failure. */
  predicate WriteFailed(news: seq<Result<nat, string>>)
  {
    news != [] && news[|news| - 1].Err?
  }

  class AuditService {
    const source: LineSource
    const store: Store
    const parse: Parser

    constructor (source: LineSource, parse: Parser, store: Store)
      ensures this.source == source && this.parse == parse && this.store == store
    {
      this.source := source;
      this.parse := parse;
      this.store := store;
    }

    /**
     * Run: the lines read are a prefix of those the source held; every
     * accepted line's payload is written once, in order; only the last
     * write may fail, and then the line it came from is the last one read
     * and the result is the write's error, wrapped; otherwise
     * every line was read, and the result is nil at EOF or the read error.
     */
    method Run() returns (err: Option<string>)
      modifies source, store
      ensures |source.pending| <= |old(source.pending)|
      ensures source.pending == old(source.pending)[|old(source.pending)| - |source.pending|..]
      ensures var read := old(source.pending)[..|old(source.pending)| - |source.pending|];
        && store.written == old(store.written) + Outputs(read, parse)
        && |store.answers| == |old(store.answers)| + |Outputs(read, parse)|
        && store.answers[..|old(store.answers)|] == old(store.answers)
      ensures var news := store.answers[|old(store.answers)|..];
        forall i :: 0 <= i < |news| - 1 ==> news[i].Ok?
      ensures var read := old(source.pending)[..|old(source.pending)| - |source.pending|];
        var news := store.answers[|old(store.answers)|..];
        WriteFailed(news) ==> read != [] && parse(read[|read| - 1]).Ok?
      ensures var news := store.answers[|old(store.answers)|..];
        WriteFailed(news) ==> err == Some("could not store audit entry, " + news[|news| - 1].error)
      ensures var news := store.answers[|old(store.answers)|..];
        !WriteFailed(news) ==> source.pending == [] && err == (if source.end == Eof then None else Some(source.end.message))
    {
      ghost var lines := source.pending;
      ghost var written0 := store.written;
      ghost var answers0 := store.answers;
      ghost var news: seq<Result<nat, string>> := [];
      while true
        invariant |source.pending| <= |lines| && source.pending == lines[|lines| - |source.pending|..]
        invariant store.written == written0 + Outputs(lines[..|lines| - |source.pending|], parse)
        invariant store.answers == answers0 + news && AllOk(news)
        invariant |news| == |Outputs(lines[..|lines| - |source.pending|], parse)|
        decreases |source.pending|
      {
        ghost var k := |lines| - |source.pending|;
        var l := source.ReadLine();
        if l.Err? {
          assert store.answers[|answers0|..] == news;
          if l.error == Eof {
            return None;
          }
          return Some(l.error.message);
        }
        ReadStep(lines, k, parse);
        var b := parse(l.value);
        if b.Err? {
          continue;
        }
        var id := store.WriteBytes(b.value);
        news := news + [id];
        if id.Err? {
          assert store.answers[|answers0|..] == news;
          assert lines[..k + 1][k] == l.value;
          return Some("could not store audit entry, " + id.error);
        }
      }
    }
  }

  /** Every answer is a transaction id. */
  predicate AllOk(answers: seq<Result<nat, string>>)
  {
    forall i :: 0 <= i < |answers| ==> answers[i].Ok?
  }

  /** Reading one more line adds its payload, if the parser accepts it. */
  lemma ReadStep(lines: seq<string>, k: nat, parse: Parser)
    requires k < |lines|
    ensures lines[k..][1..] == lines[k + 1..]
    ensures Outputs(lines[..k + 1], parse) ==
      Outputs(lines[..k], parse) + (if parse(lines[k]).Ok? then [parse(lines[k]).value] else [])
  {
    assert lines[..k + 1][..k] == lines[..k];
  }

  /** The payloads of two runs of lines are those of the first, then those of the second. */
  lemma {:induction false} OutputsAppend(a: seq<string>, b: seq<string>, parse: Parser)
    ensures Outputs(a + b, parse) == Outputs(a, parse) + Outputs(b, parse)
    decreases |b|
  {
    if b != [] {
      var last := b[|b| - 1];
      assert (a + b)[..|a + b| - 1] == a + b[..|b| - 1];
      OutputsAppend(a, b[..|b| - 1], parse);
    } else {
      assert a + b == a;
    }
  }

  /** Every payload is the output of a line the parser accepts, and each accepted line gives one. */
  lemma {:induction false} OutputsCount(lines: seq<string>, parse: Parser)
    ensures |Outputs(lines, parse)| == |Accepted(lines, parse)|
  {
    if lines != [] {
      var n := |lines| - 1;
      var init := lines[..n];
      OutputsCount(init, parse);
      var extra: set<int> := if parse(lines[n]).Ok? then {n} else {};
      forall i
        ensures i in Accepted(lines, parse) <==> i in Accepted(init, parse) + extra
      {
        if 0 <= i < n {
          assert lines[i] == init[i];
        }
      }
      assert Accepted(lines, parse) == Accepted(init, parse) + extra;
    }
  }

  /** The positions of the lines the parser accepts. */
  function Accepted(lines: seq<string>, parse: Parser): set<int>
  {
    set i | 0 <= i < |lines| && parse(lines[i]).Ok?
  }

  /** When the parser accepts every line, the payloads are the parser's outputs, line by line. */
  lemma {:induction false} OutputsAllParsed(lines: seq<string>, parse: Parser)
    requires forall i :: 0 <= i < |lines| ==> parse(lines[i]).Ok?
    ensures |Outputs(lines, parse)| == |lines|
    ensures forall i :: 0 <= i < |lines| ==> Outputs(lines, parse)[i] == parse(lines[i]).value
  {
    if lines != [] {
      var init := lines[..|lines| - 1];
      OutputsAllParsed(init, parse);
    }
  }

  /** When the parser rejects every line, nothing is written. */
  lemma {:induction false} OutputsNoneParsed(lines: seq<string>, parse: Parser)
    requires forall i :: 0 <= i < |lines| ==> parse(lines[i]).Err?
    ensures Outputs(lines, parse) == []
  {
    if lines != [] {
      OutputsNoneParsed(lines[..|lines| - 1], parse);
    }
  }
}
