/**
 * The job types of the ground station: the Two-Line Element record and its
 * text parser, the tracking `Job` record with its constructor, and the job
 * status enumeration.
 */
module Jobs {
  import opened Wrappers
  import opened RustStr

  /** Length in bytes that both TLE data lines must have. */
  const TLE_LINE_LENGTH: nat := 69

  /** Rust's `u64`. */
  newtype u64 = x: int | 0 <= x < 0x1_0000_0000_0000_0000

  /**
   * Rust's `f64`, kept as its IEEE 754 bit pattern: nothing in the job
   * types computes with or compares frequencies.
   */
  datatype F64 = F64(bits: bv64)

  /**
   * A `chrono::DateTime<Utc>`: seconds since the Unix epoch and the
   * nanoseconds within that second. Nothing in the job types compares them.
   */
  datatype UtcDateTime = UtcDateTime(unixSeconds: int, nanos: nat)

  /** Orbital elements of one satellite: the name line and the two data lines. */
  datatype TleData = TleData(tle0: seq<byte>, tle1: seq<byte>, tle2: seq<byte>)

  /** Why a text could not be read as a TLE. */
  datatype TleParseError = InsufficientLines | InvalidTle1Length | InvalidTle2Length

  /**
   * A piece that `str::lines` returns unchanged when a line feed ends it:
   * no line feed, and no carriage return at its end.
   */
  predicate IsLine(l: seq<byte>) {
    NL !in l && (l == [] || l[|l| - 1] != CR)
  }

  /** A field as the parser hands it out: one line with nothing to trim. */
  predicate IsTrimmedLine(f: seq<byte>) {
    NL !in f && NoSurroundingWhitespace(f)
  }

  /**
   * The TLE records the parser can produce: every field a trimmed line, both
   * data lines 69 bytes long, the name line of any length.
   */
  predicate WellFormed(d: TleData) {
    && IsTrimmedLine(d.tle0) && IsTrimmedLine(d.tle1) && IsTrimmedLine(d.tle2)
    && |d.tle1| == TLE_LINE_LENGTH && |d.tle2| == TLE_LINE_LENGTH
  }

  /** Three lines joined by line feeds, the layout the parser expects. */
  function Join3(a: seq<byte>, b: seq<byte>, c: seq<byte>): seq<byte> {
    a + [NL] + (b + [NL] + c)
  }

  /** The text of a TLE record: its three fields on three lines. */
  function FormatTle(d: TleData): seq<byte> {
    Join3(d.tle0, d.tle1, d.tle2)
  }

  /**
   * `TleData::try_from`: reads the first three lines of the text, trimmed,
   * as the name line and the two data lines. The checks run in a fixed
   * order and the first one that fails is reported: too few lines, then the
   * length of line 1, then the length of line 2. Lines after the third are
   * ignored, and no checksum or field layout is checked.
   */
  function ParseTle(s: seq<byte>): (r: Result<TleData, TleParseError>)
    ensures r == Err(InsufficientLines) <==> |Lines(s)| < 3
    ensures r == Err(InvalidTle1Length) <==>
              |Lines(s)| >= 3 && |Trim(Lines(s)[1])| != TLE_LINE_LENGTH
    ensures r == Err(InvalidTle2Length) <==>
              && |Lines(s)| >= 3 && |Trim(Lines(s)[1])| == TLE_LINE_LENGTH
              && |Trim(Lines(s)[2])| != TLE_LINE_LENGTH
    ensures r.Ok? ==> WellFormed(r.value)
    ensures r.Ok? ==> r.value == TleData(Trim(Lines(s)[0]), Trim(Lines(s)[1]), Trim(Lines(s)[2]))
  {
    var lines := Lines(s);
    if |lines| < 3 then
      Err(InsufficientLines)
    else
      var tle0 := Trim(lines[0]);
      var tle1 := Trim(lines[1]);
      var tle2 := Trim(lines[2]);
      if |tle1| != TLE_LINE_LENGTH then
        Err(InvalidTle1Length)
      else if |tle2| != TLE_LINE_LENGTH then
        Err(InvalidTle2Length)
      else
        Ok(TleData(tle0, tle1, tle2))
  }

  // ---------------------------------------------------------------------------
  // Properties of ParseTle
  // ---------------------------------------------------------------------------

  /**
   * Fewer than three lines, the one error found before any length check,
   * comes from the bytes alone: fewer than three line feeds, counting an
   * unterminated last piece as one more.
   */
  lemma InsufficientLinesByNewlines(s: seq<byte>)
    ensures ParseTle(s) == Err(InsufficientLines) <==>
              Count(s, NL) + (if s != [] && s[|s| - 1] != NL then 1 else 0) < 3
  {
    LinesCount(s);
  }

  /** Three raw lines joined by line feeds split back into those three lines. */
  lemma LinesJoin3(a: seq<byte>, b: seq<byte>, c: seq<byte>)
    requires IsLine(a) && IsLine(b) && NL !in c && c != []
    ensures Lines(Join3(a, b, c)) == [a, b, c]
  {
    var bc := b + [NL] + c;
    LinesTwo(b, c);
    LinesCons(a, bc);
    LineKeepsCr(a);
    assert [a] + [b, c] == [a, b, c];
  }

  /** Two raw lines joined by a line feed split back into those two lines. */
  lemma LinesTwo(b: seq<byte>, c: seq<byte>)
    requires IsLine(b) && NL !in c && c != []
    ensures Lines(b + [NL] + c) == [b, c]
  {
    LinesSingle(c);
    LinesCons(b, c);
    LineKeepsCr(b);
    assert [b] + [c] == [b, c];
  }

  /** A line not ending in a carriage return has none to lose. */
  lemma LineKeepsCr(l: seq<byte>)
    requires IsLine(l)
    ensures StripCr(l) == l
  {
  }

  /**
   * Two pieces, each ended by a line feed, are the first two lines (each less
   * one trailing carriage return), followed by the lines of the rest.
   */
  lemma LinesTwoThen(a: seq<byte>, b: seq<byte>, rest: seq<byte>)
    requires NL !in a && NL !in b
    ensures Lines(a + [NL] + (b + [NL] + rest)) == [StripCr(a), StripCr(b)] + Lines(rest)
  {
    LinesCons(b, rest);
    LinesCons(a, b + [NL] + rest);
    assert [StripCr(a)] + ([StripCr(b)] + Lines(rest)) == [StripCr(a), StripCr(b)] + Lines(rest);
  }

  /**
   * Three pieces joined by line feeds are read as those three lines, trimmed.
   * A carriage return before a line feed is dropped by `lines`, and by `trim`
   * in any case.
   */
  lemma ParseJoin3(a: seq<byte>, b: seq<byte>, c: seq<byte>)
    requires NL !in a && NL !in b && NL !in c && c != []
    ensures ParseTle(Join3(a, b, c)) ==
              if |Trim(b)| != TLE_LINE_LENGTH then Err(InvalidTle1Length)
              else if |Trim(c)| != TLE_LINE_LENGTH then Err(InvalidTle2Length)
              else Ok(TleData(Trim(a), Trim(b), Trim(c)))
  {
    LinesTwoThen(a, b, c);
    LinesSingle(c);
    assert [StripCr(a), StripCr(b)] + [c] == [StripCr(a), StripCr(b), c];
    TrimStripCr(a);
    TrimStripCr(b);
  }

  /**
   * The same holds when a line feed and any further text follow the third
   * piece, whatever that piece is (even empty): the rest is never read.
   */
  lemma ParseJoin3Then(a: seq<byte>, b: seq<byte>, c: seq<byte>, t: seq<byte>)
    requires NL !in a && NL !in b && NL !in c
    ensures ParseTle(Join3(a, b, c) + [NL] + t) ==
              if |Trim(b)| != TLE_LINE_LENGTH then Err(InvalidTle1Length)
              else if |Trim(c)| != TLE_LINE_LENGTH then Err(InvalidTle2Length)
              else Ok(TleData(Trim(a), Trim(b), Trim(c)))
  {
    assert Join3(a, b, c) + [NL] + t == a + [NL] + (b + [NL] + (c + [NL] + t));
    LinesTwoThen(a, b, c + [NL] + t);
    LinesCons(c, t);
    assert [StripCr(a), StripCr(b)] + ([StripCr(c)] + Lines(t))
        == [StripCr(a), StripCr(b), StripCr(c)] + Lines(t);
    TrimStripCr(a);
    TrimStripCr(b);
    TrimStripCr(c);
  }

  /** A trimmed line is a line, and trimming it again changes nothing. */
  lemma TrimmedLineIsLine(f: seq<byte>)
    requires IsTrimmedLine(f)
    ensures IsLine(f) && Trim(f) == f
  {
    TrimNoSurrounding(f);
  }

  /** Round trip: a well-formed record printed on three lines parses back to itself. */
  lemma ParseFormatRoundTrip(d: TleData)
    requires WellFormed(d)
    ensures ParseTle(FormatTle(d)) == Ok(d)
  {
    TrimmedLineIsLine(d.tle0);
    TrimmedLineIsLine(d.tle1);
    TrimmedLineIsLine(d.tle2);
    ParseJoin3(d.tle0, d.tle1, d.tle2);
  }

  /**
   * Whatever the parser returns, printed and parsed again, gives the same
   * record: parsing normalises a text in one step.
   */
  lemma ParseFormatParse(s: seq<byte>)
    requires ParseTle(s).Ok?
    ensures ParseTle(FormatTle(ParseTle(s).value)) == ParseTle(s)
  {
    ParseFormatRoundTrip(ParseTle(s).value);
  }

  /**
   * Only the first three lines matter: once a text has three lines, a line
   * feed and anything after it leave the result unchanged.
   */
  lemma ParseIgnoresLaterLines(s: seq<byte>, t: seq<byte>)
    requires |Lines(s)| >= 3
    ensures ParseTle(s + [NL] + t) == ParseTle(s)
  {
    LinesAppendNewline(s, t);
    FirstThreeTrimmed(Lines(s), Lines(s + [NL] + t));
    ParseTrimmedLines(s, s + [NL] + t);
  }

  /**
   * Two lists of lines that agree up to the trim of the last line of the
   * shorter one agree on their first three lines, trimmed.
   */
  lemma FirstThreeTrimmed(lines: seq<seq<byte>>, lines': seq<seq<byte>>)
    requires |lines| >= 3 && ExtendsUpToTrim(lines', lines)
    ensures Trim(lines'[0]) == Trim(lines[0]) && Trim(lines'[1]) == Trim(lines[1])
    ensures Trim(lines'[2]) == Trim(lines[2])
  {
    if |lines| > 3 {
      assert lines'[2] == lines[2];
    } else {
      assert |lines| - 1 == 2;
    }
  }

  /** The result depends only on the trimmed first three lines. */
  lemma ParseTrimmedLines(s: seq<byte>, s': seq<byte>)
    requires |Lines(s)| >= 3 && |Lines(s')| >= 3
    requires Trim(Lines(s')[0]) == Trim(Lines(s)[0])
    requires Trim(Lines(s')[1]) == Trim(Lines(s)[1])
    requires Trim(Lines(s')[2]) == Trim(Lines(s)[2])
    ensures ParseTle(s') == ParseTle(s)
  {
  }

  /** `x` is `l` with blanks (whitespace other than a line feed) before and after it. */
  ghost predicate Padded(x: seq<byte>, l: seq<byte>) {
    exists p, q :: AllBlank(p) && AllBlank(q) && x == p + l + q
  }

  /** Padding with blanks does not change what `trim` returns. */
  lemma PaddedTrim(x: seq<byte>, l: seq<byte>)
    requires Padded(x, l)
    ensures Trim(x) == Trim(l)
  {
    var p, q :| AllBlank(p) && AllBlank(q) && x == p + l + q;
    TrimPadded(p, l, q);
  }

  /** Padding with blanks adds no line feed and keeps a nonempty line nonempty. */
  lemma PaddedLine(x: seq<byte>, l: seq<byte>)
    requires Padded(x, l)
    ensures NL !in l ==> NL !in x
    ensures l != [] ==> x != []
  {
    var p, q :| AllBlank(p) && AllBlank(q) && x == p + l + q;
    assert NL !in p && NL !in q;
  }

  /**
   * Blanks added before or after any of the three lines change neither the
   * outcome nor the fields. The third raw line must not be empty: padding an
   * empty last line turns two lines into three.
   */
  lemma ParseIgnoresPadding(a: seq<byte>, b: seq<byte>, c: seq<byte>,
                            a': seq<byte>, b': seq<byte>, c': seq<byte>)
    requires NL !in a && NL !in b && NL !in c && c != []
    requires Padded(a', a) && Padded(b', b) && Padded(c', c)
    ensures ParseTle(Join3(a', b', c')) == ParseTle(Join3(a, b, c))
  {
    PaddedTrim(a', a);
    PaddedTrim(b', b);
    PaddedTrim(c', c);
    PaddedLine(a', a);
    PaddedLine(b', b);
    PaddedLine(c', c);
    ParseJoin3(a, b, c);
    ParseJoin3(a', b', c');
  }

  /**
   * When a line feed and more text follow the third line, blanks around any
   * of the three lines change nothing either, and the third line may be
   * empty: it is a line whether or not it is padded.
   */
  lemma ParseIgnoresPaddingThen(a: seq<byte>, b: seq<byte>, c: seq<byte>,
                                a': seq<byte>, b': seq<byte>, c': seq<byte>, t: seq<byte>)
    requires NL !in a && NL !in b && NL !in c
    requires Padded(a', a) && Padded(b', b) && Padded(c', c)
    ensures ParseTle(Join3(a', b', c') + [NL] + t) == ParseTle(Join3(a, b, c) + [NL] + t)
  {
    PaddedTrim(a', a);
    PaddedTrim(b', b);
    PaddedTrim(c', c);
    PaddedLine(a', a);
    PaddedLine(b', b);
    PaddedLine(c', c);
    ParseJoin3Then(a, b, c, t);
    ParseJoin3Then(a', b', c', t);
  }

  /**
   * The edge case the padding lemma excludes: two lines and a final line
   * feed are too few lines, but one blank after that line feed makes a
   * third line that trims to empty, so the error becomes a length error.
   */
  lemma PaddingEmptyThirdLine(a: seq<byte>, b: seq<byte>)
    requires NL !in a && NL !in b && |Trim(b)| == TLE_LINE_LENGTH
    ensures ParseTle(a + [NL] + (b + [NL])) == Err(InsufficientLines)
    ensures ParseTle(Join3(a, b, [32])) == Err(InvalidTle2Length)
  {
    LinesTerminated(a, b);
    ParseJoin3(a, b, [32]);
  }

  /** Two lines, each ended by a line feed, are two lines. */
  lemma LinesTerminated(a: seq<byte>, b: seq<byte>)
    requires NL !in a && NL !in b
    ensures |Lines(a + [NL] + (b + [NL]))| == 2
  {
    assert b + [NL] == b + [NL] + [];
    LinesCons(b, []);
    LinesCons(a, b + [NL]);
  }

  // ---------------------------------------------------------------------------
  // Jobs
  // ---------------------------------------------------------------------------

  /**
   * A request to track one satellite pass. The record carries no invariant:
   * the window may be empty or reversed, the frequencies any bit pattern and
   * the TLE any three strings.
   */
  datatype Job = Job(
    id: u64,
    satelliteId: seq<byte>,
    start: UtcDateTime,
    end: UtcDateTime,
    tle: TleData,
    rxFrequency: F64,
    txFrequency: F64,
    uplink: Option<seq<byte>>)

  /** Where a job stands; the job types define no transitions between these. */
  datatype JobStatus = Received | Scheduled | Started | Completed | Error

  /**
   * `Job::new`: builds the record from its arguments, checking nothing and
   * never failing. Every argument is stored unchanged in its own field.
   */
  function NewJob(id: u64, satelliteId: seq<byte>, start: UtcDateTime, end: UtcDateTime,
                  tle: TleData, rxFrequency: F64, txFrequency: F64,
                  uplink: Option<seq<byte>>): (j: Job)
    ensures j.id == id && j.satelliteId == satelliteId
    ensures j.start == start && j.end == end && j.tle == tle
    ensures j.rxFrequency == rxFrequency && j.txFrequency == txFrequency
    ensures j.uplink == uplink
  {
    Job(id, satelliteId, start, end, tle, rxFrequency, txFrequency, uplink)
  }

  /**
   * `Job::new` validates nothing: every job value, whatever its window,
   * frequencies or TLE, is the result of calling it with that job's fields.
   */
  lemma NewJobReachesEveryJob(j: Job)
    ensures NewJob(j.id, j.satelliteId, j.start, j.end, j.tle,
                   j.rxFrequency, j.txFrequency, j.uplink) == j
  {
  }

  /**
   * `Job::new` loses nothing: different arguments give different jobs. A
   * corollary of the field-by-field contract of `NewJob`, stated as a
   * property of its own.
   */
  lemma NewJobInjective(id: u64, satelliteId: seq<byte>, start: UtcDateTime, end: UtcDateTime,
                        tle: TleData, rxFrequency: F64, txFrequency: F64, uplink: Option<seq<byte>>,
                        id': u64, satelliteId': seq<byte>, start': UtcDateTime, end': UtcDateTime,
                        tle': TleData, rxFrequency': F64, txFrequency': F64, uplink': Option<seq<byte>>)
    requires NewJob(id, satelliteId, start, end, tle, rxFrequency, txFrequency, uplink)
          == NewJob(id', satelliteId', start', end', tle', rxFrequency', txFrequency', uplink')
    ensures id == id' && satelliteId == satelliteId' && start == start' && end == end'
    ensures tle == tle' && rxFrequency == rxFrequency' && txFrequency == txFrequency'
    ensures uplink == uplink'
  {
  }
}
