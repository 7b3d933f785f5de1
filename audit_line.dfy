/**
 * What the two pgaudit line parsers share: the log line prefix `%m [%p] `
 * (a timestamp with time zone of at least 26 bytes, ended by the first
 * space at or after byte 26), the marker that opens the audit record, and
 * the entry a record becomes.
 */
module AuditLine {
  import opened Wrappers
  import opened Text
  import opened Json
  import opened Errors
  import opened Decimal
  import opened Csv

  /** time.Parse with the layout "2006-02-01 15:04:05.000 MST": the instant, or the error text. */
  type TimeParser = string -> Result<Instant, string>

  /** The shortest timestamp with time zone the prefix may hold. */
  const MinPrefix: nat := 26

  /** The text pgaudit writes in front of its comma-separated record. */
  const Marker: string := "AUDIT: "

  /** PGAuditEntry: `timestamp` is when the line was parsed, `logTimestamp` when PostgreSQL logged it. */
  datatype Entry = Entry(
    timestamp: Instant,
    logTimestamp: Instant,
    auditType: string,
    statementID: int,
    substatementID: int,
    auditClass: string,
    command: string,
    objectType: string,
    objectName: string,
    statement: string,
    parameter: string)

  /** A one-byte needle occurs exactly where that byte is. */
  lemma OccursByte(s: string, c: char, j: int)
    ensures OccursAt(s, [c], j) <==> 0 <= j < |s| && s[j] == c
  {
    if 0 <= j < |s| {
      assert s[j..j + 1] == [s[j]];
    }
  }

  /**
   * The end of the timestamp: the offset of the first space at or after
   * byte 26, that is 26 + strings.Index(line[26:], " "), or -1 when there
   * is none.
   */
  function SpaceAfterPrefix(line: string): (r: int)
    requires |line| >= MinPrefix
    ensures r == -1 <==> forall j :: MinPrefix <= j < |line| ==> line[j] != ' '
    ensures r >= 0 ==> MinPrefix <= r < |line| && line[r] == ' '
    ensures r >= 0 ==> forall j :: MinPrefix <= j < r ==> line[j] != ' '
  {
    var s := line[MinPrefix..];
    var pos := Index(s, " ");
    assert forall j :: OccursAt(s, " ", j) <==> 0 <= j < |s| && s[j] == ' ' by {
      forall j { OccursByte(s, ' ', j); }
    }
    assert forall j :: 0 <= j < |s| ==> s[j] == line[MinPrefix + j];
    if pos < 0 then -1 else MinPrefix + pos
  }

  /**
   * The log line prefix: too short, no end to the time zone, or a timestamp
   * the time parser rejects are errors; otherwise the parsed timestamp and
   * the offset of the space that ends it.
   */
  function Prefix(line: string, parseTime: TimeParser): (r: Result<(Instant, nat), Error>)
    ensures |line| < MinPrefix <==> r == Err(Failed("invalid log line prefix, too short"))
    ensures r == Err(Failed("invalid log line prefix")) <==>
      |line| >= MinPrefix && forall j :: MinPrefix <= j < |line| ==> line[j] != ' '
    ensures r.Ok? ==> |line| >= MinPrefix && r.value.1 == SpaceAfterPrefix(line)
    ensures r.Ok? ==> MinPrefix <= r.value.1 < |line| && parseTime(line[..r.value.1]) == Ok(r.value.0)
    ensures |line| >= MinPrefix && SpaceAfterPrefix(line) >= 0 && parseTime(line[..SpaceAfterPrefix(line)]).Err? ==>
      r == Err(Failed("could not parse timestamp: " + parseTime(line[..SpaceAfterPrefix(line)]).error))
  {
    if |line| < MinPrefix then Err(Failed("invalid log line prefix, too short"))
    else
      var end := SpaceAfterPrefix(line);
      if end < 0 then Err(Failed("invalid log line prefix"))
      else
        match parseTime(line[..end])
        case Err(e) =>
          assert ("could not parse timestamp: " + e)[0] == 'c';
          Err(Failed("could not parse timestamp: " + e))
        case Ok(ts) => Ok((ts, end))
  }

  /**
   * A line built from a timestamp text whose zone ends it, followed by a
   * text that starts with a space: the prefix ends right after the
   * timestamp text.
   */
  lemma PrefixOf(stamp: string, rest: string, parseTime: TimeParser)
    requires |stamp| >= MinPrefix && forall j :: MinPrefix <= j < |stamp| ==> stamp[j] != ' '
    requires rest != [] && rest[0] == ' '
    ensures SpaceAfterPrefix(stamp + rest) == |stamp|
    ensures (stamp + rest)[..|stamp|] == stamp
  {
    var line := stamp + rest;
    assert line[|stamp|] == ' ';
    assert forall j :: MinPrefix <= j < |stamp| ==> line[j] == stamp[j];
  }

  /** The marker is first found right after a text that holds no `A`. */
  lemma MarkerAfter(head: string, rest: string)
    requires 'A' !in head
    ensures Index(head + Marker + rest, Marker) == |head|
  {
    var s := head + Marker + rest;
    assert s[|head|..|head| + |Marker|] == Marker;
    assert OccursAt(s, Marker, |head|);
    forall j | 0 <= j < |head|
      ensures !OccursAt(s, Marker, j)
    {
      assert s[j] == head[j] != 'A';
      assert j + |Marker| <= |s| ==> s[j..j + |Marker|][0] == s[j];
    }
  }

  /** The nine fields pgaudit writes for an entry. */
  function CsvFields(e: Entry): (r: seq<string>)
    ensures |r| == 9
  {
    [e.auditType, FormatInt(e.statementID), FormatInt(e.substatementID), e.auditClass, e.command,
     e.objectType, e.objectName, e.statement, e.parameter]
  }

  /** Text fields of an entry that need no CSV quoting. */
  predicate PlainText(e: Entry)
  {
    Plain([e.auditType, e.auditClass, e.command, e.objectType, e.objectName, e.statement, e.parameter])
  }

  /** The decimal text of an integer holds no comma and no quote. */
  lemma FormatIntPlain(i: int)
    ensures ',' !in FormatInt(i) && '"' !in FormatInt(i)
  {
    var s := FormatInt(i);
    var digits := if i < 0 then Format(-i) else Format(i);
    assert forall j :: 0 <= j < |s| ==> s[j] == '-' || IsDigit(s[j]) by {
      if i < 0 {
        assert forall j :: 1 <= j < |s| ==> s[j] == digits[j - 1];
      }
    }
  }

  /** The fields of an entry with plain texts are plain. */
  lemma CsvFieldsPlain(e: Entry)
    requires PlainText(e)
    ensures Plain(CsvFields(e))
  {
    var fs := CsvFields(e);
    FormatIntPlain(e.statementID);
    FormatIntPlain(e.substatementID);
    var texts := [e.auditType, e.auditClass, e.command, e.objectType, e.objectName, e.statement, e.parameter];
    forall i | 0 <= i < |fs|
      ensures ',' !in fs[i] && '"' !in fs[i]
    {
      if i >= 3 {
        assert fs[i] == texts[i - 2];
      } else if i == 0 {
        assert fs[i] == texts[0];
      }
    }
  }

  /**
   * A timestamp text whose time zone runs to its end, then the text up to
   * the marker: it starts with a space and holds no `A`, like `[pid] LOG:`.
   */
  predicate Framed(stamp: string, head: string)
  {
    && |stamp| >= MinPrefix && (forall j :: MinPrefix <= j < |stamp| ==> stamp[j] != ' ')
    && head != [] && head[0] == ' ' && 'A' !in head
  }

  /**
   * A framed line: the prefix is the whole timestamp text, the marker is
   * first found right after the text up to it, and the record follows.
   */
  lemma FramedLine(stamp: string, head: string, text: string, parseTime: TimeParser)
    requires Framed(stamp, head) && parseTime(stamp).Ok?
    ensures var line := stamp + head + Marker + text;
      && Prefix(line, parseTime) == Ok((parseTime(stamp).value, |stamp|))
      && line[..|stamp|] == stamp
      && line[|stamp|..] == head + Marker + text
      && Index(line[|stamp|..], Marker) == |head|
      && line[|stamp| + |head| + |Marker|..] == text
  {
    var after := head + Marker + text;
    var line := stamp + head + Marker + text;
    assert line == stamp + after;
    PrefixOf(stamp, after, parseTime);
    assert line[|stamp|..] == after;
    MarkerAfter(head, text);
    assert line[|stamp| + |head| + |Marker|..] == text;
  }

  /** A text without an `A` holds no marker. */
  lemma NoMarker(s: string)
    requires 'A' !in s
    ensures Index(s, Marker) == -1
  {
    forall j | 0 <= j && j + |Marker| <= |s|
      ensures !OccursAt(s, Marker, j)
    {
      assert s[j..j + |Marker|][0] == s[j];
    }
  }

  /** The prefix of a line as PostgreSQL writes it with pgaudit enabled and the default `%m [%p] `. */
  const SampleStamp: string := "2022-01-05 12:34:56.789 GMT"
  const SampleHead: string := " [294] LOG:  "

  /** The sample prefix is framed, holds no comma or quote, and is longer than the text up to the record. */
  lemma SampleFramed()
    ensures Framed(SampleStamp, SampleHead)
    ensures ',' !in SampleStamp + SampleHead && '"' !in SampleStamp + SampleHead
    ensures 'A' !in SampleStamp
    ensures |SampleHead| + |Marker| <= |SampleStamp|
  {
  }

  /** What of the sample line lies between the marker's offset and the record. */
  lemma SampleTail()
    ensures SampleStamp[|SampleHead| + |Marker|..] + SampleHead + Marker == "789 GMT [294] LOG:  AUDIT: "
  {
    assert SampleStamp[20..] == "789 GMT";
  }
}
