/**
 * parsePgAuditLine (pkg/pgaudit/pgaudit.go): the older pgaudit line
 * parser. It looks for the marker inside the timestamp text instead of
 * after it, so a line as PostgreSQL writes it is never a pgaudit line; and
 * it leaves both statement ids at zero. ParseFixed looks after the prefix.
 */
module PgAudit {
  import opened Wrappers
  import opened Text
  import opened Decimal
  import opened Json
  import opened Errors
  import opened Csv
  import opened AuditLine

  /** The entry of one record: nine fields or more; fields 1 and 2 are not read. */
  function Record(text: string, ts: Instant, now: Instant): (r: Result<Entry, Error>)
    ensures r.Ok? <==> ReadRecord(text).Some? && |ReadRecord(text).value| >= 9
    ensures r.Ok? ==>
      var fs := ReadRecord(text).value;
      r.value == Entry(now, ts, fs[0], 0, 0, fs[3], fs[4], fs[5], fs[6], fs[7], fs[8])
    ensures ReadRecord(text).None? ==> r == Err(Failed("invalid csv line"))
    ensures ReadRecord(text).Some? && |ReadRecord(text).value| < 9 ==>
      r == Err(Failed("invalid csv fields length: " + FormatInt(|ReadRecord(text).value|)))
  {
    match ReadRecord(text)
    case None => Err(Failed("invalid csv line"))
    case Some(fs) =>
      if |fs| < 9 then Err(Failed("invalid csv fields length: " + FormatInt(|fs|)))
      else Ok(Entry(now, ts, fs[0], 0, 0, fs[3], fs[4], fs[5], fs[6], fs[7], fs[8]))
  }

  /**
   * parsePgAuditLine as written: the marker is looked for in the
   * timestamp text, and the record read from right after it.
   */
  function Parse(line: string, parseTime: TimeParser, now: Instant): (r: Result<Entry, Error>)
    ensures |line| < MinPrefix ==> r == Err(Failed("invalid log line prefix, too short"))
    ensures |line| >= MinPrefix && SpaceAfterPrefix(line) < 0 ==> r == Err(Failed("invalid log line prefix"))
    ensures Prefix(line, parseTime).Ok? && Index(line[..SpaceAfterPrefix(line)], Marker) < 0 ==>
      r == Err(Failed("not a pgaudit line"))
    ensures r.Ok? ==>
      && |line| >= MinPrefix && SpaceAfterPrefix(line) >= 0
      && parseTime(line[..SpaceAfterPrefix(line)]) == Ok(r.value.logTimestamp)
      && r.value.timestamp == now && r.value.statementID == 0 && r.value.substatementID == 0
  {
    match Prefix(line, parseTime)
    case Err(e) => Err(e)
    case Ok((ts, end)) =>
      var pos := Index(line[..end], Marker);
      if pos < 0 then Err(Failed("not a pgaudit line"))
      else Record(line[pos + |Marker|..], ts, now)
  }

  /** parsePgAuditLine with the marker looked for after the prefix, and the record read from right after it. */
  function ParseFixed(line: string, parseTime: TimeParser, now: Instant): (r: Result<Entry, Error>)
    ensures |line| < MinPrefix ==> r == Err(Failed("invalid log line prefix, too short"))
    ensures |line| >= MinPrefix && SpaceAfterPrefix(line) < 0 ==> r == Err(Failed("invalid log line prefix"))
    ensures Prefix(line, parseTime).Ok? && Index(line[SpaceAfterPrefix(line)..], Marker) < 0 ==>
      r == Err(Failed("not a pgaudit line"))
    ensures r.Ok? ==>
      && |line| >= MinPrefix && SpaceAfterPrefix(line) >= 0
      && parseTime(line[..SpaceAfterPrefix(line)]) == Ok(r.value.logTimestamp)
      && r.value.timestamp == now && r.value.statementID == 0 && r.value.substatementID == 0
  {
    match Prefix(line, parseTime)
    case Err(e) => Err(e)
    case Ok((ts, end)) =>
      var pos := Index(line[end..], Marker);
      if pos < 0 then Err(Failed("not a pgaudit line"))
      else Record(line[end + pos + |Marker|..], ts, now)
  }

  /**
   * The parser as written accepts a line only when the marker lies wholly
   * in its first 26 bytes: the timestamp text holds no space after byte 26,
   * and the marker ends in one.
   */
  lemma MarkerWithinMinPrefix(line: string, parseTime: TimeParser, now: Instant)
    requires Parse(line, parseTime, now).Ok?
    ensures 0 <= Index(line, Marker) && Index(line, Marker) + |Marker| <= MinPrefix
  {
    var end := SpaceAfterPrefix(line);
    var stamp := line[..end];
    var pos := Index(stamp, Marker);
    assert pos >= 0;
    assert stamp[pos..pos + |Marker|] == Marker;
    assert line[pos + 6] == stamp[pos..pos + |Marker|][6] == ' ';
    assert line[pos..pos + |Marker|] == Marker;
    assert OccursAt(line, Marker, pos);
    forall j | 0 <= j < pos
      ensures !OccursAt(line, Marker, j)
    {
      if OccursAt(line, Marker, j) {
        assert stamp[j..j + |Marker|] == line[j..j + |Marker|];
        assert OccursAt(stamp, Marker, j);
      }
    }
  }

  /**
   * On a line as PostgreSQL writes it, whose timestamp holds no `A`, the
   * parser as written finds no marker, while the corrected parser reads the
   * record after it.
   */
  lemma TimestampHidesMarker(stamp: string, head: string, text: string, parseTime: TimeParser, now: Instant)
    requires Framed(stamp, head) && parseTime(stamp).Ok? && 'A' !in stamp
    ensures var line := stamp + head + Marker + text;
      && Parse(line, parseTime, now) == Err(Failed("not a pgaudit line"))
      && ParseFixed(line, parseTime, now) == Record(text, parseTime(stamp).value, now)
  {
    FramedLine(stamp, head, text, parseTime);
    NoMarker(stamp);
  }

  /** The sample line is not a pgaudit line to the parser as written, whatever record it carries. */
  lemma SampleRejected(text: string, parseTime: TimeParser, now: Instant)
    requires parseTime(SampleStamp).Ok?
    ensures Parse(SampleStamp + SampleHead + Marker + text, parseTime, now) == Err(Failed("not a pgaudit line"))
  {
    SampleFramed();
    TimestampHidesMarker(SampleStamp, SampleHead, text, parseTime, now);
  }

  /**
   * A framed line carrying an entry's record parses, corrected, to that
   * entry with both statement ids zero.
   */
  lemma ParseFixedRoundTrip(stamp: string, head: string, e: Entry, parseTime: TimeParser)
    requires Framed(stamp, head) && parseTime(stamp) == Ok(e.logTimestamp)
    requires PlainText(e)
    ensures ParseFixed(stamp + head + Marker + JoinCommas(CsvFields(e)), parseTime, e.timestamp)
      == Ok(e.(statementID := 0, substatementID := 0))
  {
    FramedLine(stamp, head, JoinCommas(CsvFields(e)), parseTime);
    CsvFieldsPlain(e);
    FieldsOfPlain(CsvFields(e));
  }
}
