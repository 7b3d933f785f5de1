/**
 * PGAuditLineParser.Parse (pkg/lineparser/pgaudit.go): a PostgreSQL log
 * line carrying a pgaudit record becomes a PGAuditEntry. The marker is
 * looked for after the log line prefix, but the offset found there is
 * applied to the start of the line; ParseFixed applies it after the prefix.
 */
module LineParser {
  import opened Wrappers
  import opened Text
  import opened Decimal
  import opened Json
  import opened Errors
  import opened Csv
  import opened AuditLine

  /** The entry of one pgaudit record: nine fields or more, the second and third integers. */
  function Record(text: string, ts: Instant, now: Instant): (r: Result<Entry, Error>)
    ensures r.Ok? ==> r.value.timestamp == now && r.value.logTimestamp == ts
  {
    match ReadRecord(text)
    case None => Err(Failed("invalid csv line"))
    case Some(fs) =>
      if |fs| < 9 then Err(Failed("invalid csv fields length: " + FormatInt(|fs|)))
      else
        match Atoi(fs[1])
        case None => Err(Failed("could not parse statementID"))
        case Some(statementID) =>
          match Atoi(fs[2])
          case None => Err(Failed("could not parse substatementID"))
          case Some(substatementID) =>
            Ok(Entry(now, ts, fs[0], statementID, substatementID, fs[3], fs[4], fs[5], fs[6], fs[7], fs[8]))
  }

  /**
   * The steps both parsers share: the log timestamp read from the prefix,
   * the end of the prefix, and the offset of the first marker in the text
   * after the prefix; a line without a marker there is not a pgaudit line.
   */
  function Locate(line: string, parseTime: TimeParser): (r: Result<(Instant, nat, nat), Error>)
    ensures r.Ok? ==> Prefix(line, parseTime) == Ok((r.value.0, r.value.1))
    ensures r.Ok? ==> r.value.1 + r.value.2 + |Marker| <= |line| && OccursAt(line[r.value.1..], Marker, r.value.2)
  {
    match Prefix(line, parseTime)
    case Err(e) => Err(e)
    case Ok((ts, end)) =>
      var pos := Index(line[end..], Marker);
      if pos < 0 then Err(Failed("not a pgaudit line"))
      else Ok((ts, end, pos))
  }

  /**
   * Parse as written: the record is read from the marker's
   * offset within the text after the prefix, counted from the start of
   * the line.
   */
  function Parse(line: string, parseTime: TimeParser, now: Instant): (r: Result<Entry, Error>)
    ensures |line| < MinPrefix ==> r == Err(Failed("invalid log line prefix, too short"))
    ensures |line| >= MinPrefix && SpaceAfterPrefix(line) < 0 ==> r == Err(Failed("invalid log line prefix"))
    ensures r.Ok? ==>
      && |line| >= MinPrefix && SpaceAfterPrefix(line) >= 0
      && parseTime(line[..SpaceAfterPrefix(line)]) == Ok(r.value.logTimestamp)
      && r.value.timestamp == now
    ensures Prefix(line, parseTime).Ok? && Index(line[SpaceAfterPrefix(line)..], Marker) < 0 ==>
      r == Err(Failed("not a pgaudit line"))
  {
    match Locate(line, parseTime)
    case Err(e) => Err(e)
    case Ok((ts, end, pos)) => Record(line[pos + |Marker|..], ts, now)
  }

  /** Parse with the marker's offset counted from the end of the prefix, where it was looked for. */
  function ParseFixed(line: string, parseTime: TimeParser, now: Instant): (r: Result<Entry, Error>)
    ensures |line| < MinPrefix ==> r == Err(Failed("invalid log line prefix, too short"))
    ensures |line| >= MinPrefix && SpaceAfterPrefix(line) < 0 ==> r == Err(Failed("invalid log line prefix"))
    ensures r.Ok? ==>
      && |line| >= MinPrefix && SpaceAfterPrefix(line) >= 0
      && parseTime(line[..SpaceAfterPrefix(line)]) == Ok(r.value.logTimestamp)
      && r.value.timestamp == now
    ensures Prefix(line, parseTime).Ok? && Index(line[SpaceAfterPrefix(line)..], Marker) < 0 ==>
      r == Err(Failed("not a pgaudit line"))
  {
    match Locate(line, parseTime)
    case Err(e) => Err(e)
    case Ok((ts, end, pos)) => Record(line[end + pos + |Marker|..], ts, now)
  }

  /**
   * The record maps field by field: a record reads as an entry exactly when
   * it has nine fields or more whose second and third are integers; the
   * entry then holds fields 0 to 8 in declaration order and ignores the rest.
   */
  lemma RecordFields(text: string, ts: Instant, now: Instant)
    ensures Record(text, ts, now).Ok? <==>
      ReadRecord(text).Some? && |ReadRecord(text).value| >= 9
      && Atoi(ReadRecord(text).value[1]).Some? && Atoi(ReadRecord(text).value[2]).Some?
    ensures Record(text, ts, now).Ok? ==>
      var fs := ReadRecord(text).value;
      Record(text, ts, now).value
        == Entry(now, ts, fs[0], Atoi(fs[1]).value, Atoi(fs[2]).value, fs[3], fs[4], fs[5], fs[6], fs[7], fs[8])
  {
  }

  /** Writing an entry's fields as a record and reading it back gives the entry. */
  lemma RecordRoundTrip(e: Entry)
    requires PlainText(e)
    requires Int64Min <= e.statementID <= Int64Max && Int64Min <= e.substatementID <= Int64Max
    ensures Record(Csv.JoinCommas(CsvFields(e)), e.logTimestamp, e.timestamp) == Ok(e)
  {
    var fs := CsvFields(e);
    CsvFieldsPlain(e);
    FieldsOfPlain(fs);
    assert Csv.JoinCommas(fs) == fs[0] + "," + Csv.JoinCommas(fs[1..]);
    FormatAtoi(e.statementID);
    FormatAtoi(e.substatementID);
  }

  /**
   * A line made of a timestamp, a text up to the marker holding no `A`, the
   * marker and an entry's record parses, corrected, to that entry.
   */
  lemma ParseFixedRoundTrip(stamp: string, head: string, e: Entry, parseTime: TimeParser)
    requires Framed(stamp, head) && parseTime(stamp) == Ok(e.logTimestamp)
    requires PlainText(e)
    requires Int64Min <= e.statementID <= Int64Max && Int64Min <= e.substatementID <= Int64Max
    ensures ParseFixed(stamp + head + Marker + Csv.JoinCommas(CsvFields(e)), parseTime, e.timestamp) == Ok(e)
  {
    FixedReadsFrom(stamp, head, Csv.JoinCommas(CsvFields(e)), parseTime, e.timestamp);
    RecordRoundTrip(e);
  }

  /**
   * On a framed line the record is located right after the first marker:
   * the prefix ends with the timestamp and the marker follows the text up
   * to it.
   */
  lemma FramedLocated(stamp: string, head: string, text: string, parseTime: TimeParser)
    requires Framed(stamp, head) && parseTime(stamp).Ok?
    ensures var line := stamp + head + Marker + text;
      && Locate(line, parseTime) == Ok((parseTime(stamp).value, |stamp|, |head|))
      && line[|stamp| + |head| + |Marker|..] == text
  {
    FramedLine(stamp, head, text, parseTime);
    LocatedAt(stamp + head + Marker + text, parseTime, parseTime(stamp).value, |stamp|, |head|);
  }

  /** On a framed line, the corrected parser reads the record right after the marker. */
  lemma FixedReadsFrom(stamp: string, head: string, text: string, parseTime: TimeParser, now: Instant)
    requires Framed(stamp, head) && parseTime(stamp).Ok?
    ensures ParseFixed(stamp + head + Marker + text, parseTime, now) == Record(text, parseTime(stamp).value, now)
  {
    FramedLocated(stamp, head, text, parseTime);
    ParsedFixedAt(stamp + head + Marker + text, parseTime, now, parseTime(stamp).value, |stamp|, |head|);
  }

  /** A prefix ending at `end` followed, `pos` characters later, by the first marker locates the record. */
  lemma LocatedAt(line: string, parseTime: TimeParser, ts: Instant, end: nat, pos: nat)
    requires Prefix(line, parseTime) == Ok((ts, end))
    requires Index(line[end..], Marker) == pos
    ensures Locate(line, parseTime) == Ok((ts, end, pos))
  {
  }

  /**
   * Once the record is located, the parser as written reads it from the
   * marker's offset plus the marker's length, counted from the start of
   * the line.
   */
  lemma ParsedAt(line: string, parseTime: TimeParser, now: Instant, loc: (Instant, nat, nat))
    requires Locate(line, parseTime) == Ok(loc)
    ensures loc.2 + |Marker| <= |line|
    ensures Parse(line, parseTime, now) == Record(line[loc.2 + |Marker|..], loc.0, now)
  {
  }

  /** Once the record is located, the corrected parser reads it from right after the marker. */
  lemma ParsedFixedAt(line: string, parseTime: TimeParser, now: Instant, ts: Instant, end: nat, pos: nat)
    requires Locate(line, parseTime) == Ok((ts, end, pos))
    ensures end + pos + |Marker| <= |line|
    ensures ParseFixed(line, parseTime, now) == Record(line[end + pos + |Marker|..], ts, now)
  {
    var rest := line[end + pos + |Marker|..];
    assert ParseFixed(line, parseTime, now) == Record(rest, ts, now);
  }


  /** Two records that differ only in a plain first field read as entries that differ only in the audit type. */
  lemma FirstFieldOnly(f: string, g: string, rest: string, ts: Instant, now: Instant)
    requires ',' !in f && '"' !in f && ',' !in g && '"' !in g
    ensures Record(f + "," + rest, ts, now).Ok? == Record(g + "," + rest, ts, now).Ok?
    ensures Record(g + "," + rest, ts, now).Ok? ==>
      Record(f + "," + rest, ts, now) == Ok(Record(g + "," + rest, ts, now).value.(auditType := f))
  {
    FieldsPlainHead(f, rest);
    FieldsPlainHead(g, rest);
  }

  /**
   * On a line as PostgreSQL writes it (SampleFramed shows that the usual
   * prefix qualifies), the parser as written reads the record from inside
   * the timestamp: the audit type it reports is the end of the timestamp,
   * the text up to the marker and the marker, before the real audit type.
   * The corrected parser reads the entry the line holds.
   */
  lemma OffsetMisreadsRecord(stamp: string, head: string, e: Entry, parseTime: TimeParser)
    requires Framed(stamp, head) && parseTime(stamp) == Ok(e.logTimestamp)
    requires |head| + |Marker| <= |stamp|
    requires ',' !in stamp + head && '"' !in stamp + head
    requires PlainText(e)
    requires Int64Min <= e.statementID <= Int64Max && Int64Min <= e.substatementID <= Int64Max
    ensures var line := stamp + head + Marker + Csv.JoinCommas(CsvFields(e));
      && Parse(line, parseTime, e.timestamp)
         == Ok(e.(auditType := stamp[|head| + |Marker|..] + head + Marker + e.auditType))
      && ParseFixed(line, parseTime, e.timestamp) == Ok(e)
    ensures stamp[|head| + |Marker|..] + head + Marker + e.auditType != e.auditType
  {
    MisreadEntry(stamp, head, e, parseTime);
    ParseFixedRoundTrip(stamp, head, e, parseTime);
    assert |stamp[|head| + |Marker|..] + head + Marker + e.auditType| > |e.auditType|;
  }

  /** The parser as written reads the entry with the shifted audit type. */
  lemma MisreadEntry(stamp: string, head: string, e: Entry, parseTime: TimeParser)
    requires Framed(stamp, head) && parseTime(stamp) == Ok(e.logTimestamp)
    requires |head| + |Marker| <= |stamp|
    requires ',' !in stamp + head && '"' !in stamp + head
    requires PlainText(e)
    requires Int64Min <= e.statementID <= Int64Max && Int64Min <= e.substatementID <= Int64Max
    ensures Parse(stamp + head + Marker + Csv.JoinCommas(CsvFields(e)), parseTime, e.timestamp)
      == Ok(e.(auditType := stamp[|head| + |Marker|..] + head + Marker + e.auditType))
  {
    var fs := CsvFields(e);
    var text := Csv.JoinCommas(fs);
    var rest := Csv.JoinCommas(fs[1..]);
    assert text == e.auditType + "," + rest;
    var line := stamp + head + Marker + text;
    var k := |head| + |Marker|;
    var early := stamp[k..] + head + Marker + e.auditType;
    FramedLocated(stamp, head, text, parseTime);
    ParsedAt(line, parseTime, e.timestamp, (e.logTimestamp, |stamp|, |head|));
    DropFront(stamp, head, text, e.auditType, rest, k);
    AuditTypePlain(e);
    PlainShift(stamp, head, k, e.auditType);
    ShiftedRecord(early, e);
  }

  /** The audit type of an entry with plain texts holds no comma and no quote. */
  lemma AuditTypePlain(e: Entry)
    requires PlainText(e)
    ensures ',' !in e.auditType && '"' !in e.auditType
  {
    var texts := [e.auditType, e.auditClass, e.command, e.objectType, e.objectName, e.statement, e.parameter];
    assert texts[0] == e.auditType;
  }

  /** An entry's record whose first field is replaced by a plain text reads as the entry with that audit type. */
  lemma ShiftedRecord(f: string, e: Entry)
    requires ',' !in f && '"' !in f
    requires PlainText(e)
    requires Int64Min <= e.statementID <= Int64Max && Int64Min <= e.substatementID <= Int64Max
    ensures Record(f + "," + Csv.JoinCommas(CsvFields(e)[1..]), e.logTimestamp, e.timestamp) == Ok(e.(auditType := f))
  {
    var fs := CsvFields(e);
    var rest := Csv.JoinCommas(fs[1..]);
    assert Csv.JoinCommas(fs) == e.auditType + "," + rest;
    RecordRoundTrip(e);
    AuditTypePlain(e);
    FirstFieldOnly(f, e.auditType, rest, e.logTimestamp, e.timestamp);
  }

  /**
   * The sample prefix: whatever record follows it, the parser as written
   * reports `789 GMT [294] LOG:  AUDIT: ` in front of the audit type.
   */
  lemma SampleMisread(e: Entry, parseTime: TimeParser)
    requires parseTime(SampleStamp) == Ok(e.logTimestamp)
    requires PlainText(e)
    requires Int64Min <= e.statementID <= Int64Max && Int64Min <= e.substatementID <= Int64Max
    ensures var line := SampleStamp + SampleHead + Marker + Csv.JoinCommas(CsvFields(e));
      Parse(line, parseTime, e.timestamp) == Ok(e.(auditType := "789 GMT [294] LOG:  AUDIT: " + e.auditType))
  {
    SampleFramed();
    OffsetMisreadsRecord(SampleStamp, SampleHead, e, parseTime);
    SampleTail();
  }

  /** The end of a plain prefix, the marker and a plain field hold no comma or quote. */
  lemma PlainShift(stamp: string, head: string, k: nat, f: string)
    requires k <= |stamp| && ',' !in stamp + head && '"' !in stamp + head && ',' !in f && '"' !in f
    ensures var early := stamp[k..] + head + Marker + f; ',' !in early && '"' !in early
  {
    var early := stamp[k..] + head + Marker + f;
    forall j | 0 <= j < |early|
      ensures early[j] != ',' && early[j] != '"'
    {
      if j < |stamp| - k {
        assert early[j] == (stamp + head)[k + j];
      } else if j < |stamp| - k + |head| {
        assert early[j] == (stamp + head)[k + j];
      } else if j >= |stamp| - k + |head| + |Marker| {
        assert early[j] == f[j - (|stamp| - k + |head| + |Marker|)];
      }
    }
  }

  /** Dropping `k` bytes of the timestamp from a line whose record has a first field `f`. */
  lemma DropFront(stamp: string, head: string, text: string, f: string, rest: string, k: nat)
    requires k <= |stamp| && text == f + "," + rest
    ensures (stamp + head + Marker + text)[k..] == (stamp[k..] + head + Marker + f) + "," + rest
  {
    var s := stamp + head + Marker + text;
    assert s == stamp + (head + Marker + f + "," + rest);
  }
}
