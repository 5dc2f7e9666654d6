/**
 * The worked example of the job documentation: the International Space
 * Station's TLE, read from text, and a job built around it.
 */
module JobExamples {
  import opened Wrappers
  import opened RustStr
  import opened Jobs

  /**
   * The UTF-8 bytes of a text whose characters are all ASCII, one byte per
   * character (only such texts are used here; any other character is cut
   * to its low byte).
   */
  function Ascii(s: string): (r: seq<byte>)
    ensures |r| == |s|
    ensures forall i | 0 <= i < |s| :: s[i] < 128 as char ==> r[i] as int == s[i] as int
  {
    seq(|s|, i requires 0 <= i < |s| => (s[i] as int % 256) as byte)
  }

  /** The example's texts; the data lines are written in three parts of 23 characters. */
  const IssName: string := "ISS (ZARYA)"
  const IssLine1a: string := "1 25544U 98067A   25235"
  const IssLine1b: string := ".75642456  .00011222  0"
  const IssLine1c: string := "0000+0  20339-3 0  9993"
  const IssLine2a: string := "2 25544  51.6355 332.17"
  const IssLine2b: string := "08 0003307 260.2831  99"
  const IssLine2c: string := ".7785 15.50129787525648"
  const IssLine1: string := IssLine1a + IssLine1b + IssLine1c
  const IssLine2: string := IssLine2a + IssLine2b + IssLine2c

  /** Every character is a printable ASCII character (space included). */
  predicate Printable(s: string) {
    forall i | 0 <= i < |s| :: ' ' <= s[i] < 127 as char
  }

  lemma IssLinesArePlain()
    ensures PlainLine(IssName) && PlainLine(IssLine1) && PlainLine(IssLine2)
    ensures |IssLine1| == TLE_LINE_LENGTH && |IssLine2| == TLE_LINE_LENGTH
  {
    IssLine1IsPlain();
    IssLine2IsPlain();
  }

  lemma IssLine1IsPlain()
    ensures PlainLine(IssLine1)
  {
    assert Printable(IssLine1a);
    assert Printable(IssLine1b);
    assert Printable(IssLine1c);
    PrintableConcat(IssLine1a, IssLine1b);
    PrintableConcat(IssLine1a + IssLine1b, IssLine1c);
  }

  lemma IssLine2IsPlain()
    ensures PlainLine(IssLine2)
  {
    assert Printable(IssLine2a);
    assert Printable(IssLine2b);
    assert Printable(IssLine2c);
    PrintableConcat(IssLine2a, IssLine2b);
    PrintableConcat(IssLine2a + IssLine2b, IssLine2c);
  }

  lemma PrintableConcat(s: string, t: string)
    requires Printable(s) && Printable(t)
    ensures Printable(s + t)
  {
    forall i | 0 <= i < |s + t|
      ensures ' ' <= (s + t)[i] < 127 as char
    {
      if i >= |s| { assert (s + t)[i] == t[i - |s|]; }
    }
  }

  /** A nonempty text of printable ASCII characters that neither starts nor ends with a space. */
  predicate PlainLine(s: string) {
    && |s| > 0 && Printable(s)
    && s[0] != ' ' && s[|s| - 1] != ' '
  }

  /** The bytes of such a text are one line with nothing to trim. */
  lemma PlainLineIsTrimmed(s: string)
    requires PlainLine(s)
    ensures IsTrimmedLine(Ascii(s))
  {
    var r := Ascii(s);
    assert forall i | 0 <= i < |r| :: r[i] as int == s[i] as int >= 32;
    assert r[0] as int == s[0] as int && r[|r| - 1] as int == s[|s| - 1] as int;
  }

  /**
   * The documented example text, name line and two data lines, parses
   * to the record holding exactly those three lines.
   */
  lemma IssExampleParses()
    ensures ParseTle(Join3(Ascii(IssName), Ascii(IssLine1), Ascii(IssLine2)))
         == Ok(TleData(Ascii(IssName), Ascii(IssLine1), Ascii(IssLine2)))
    ensures |Ascii(IssLine1)| == TLE_LINE_LENGTH && |Ascii(IssLine2)| == TLE_LINE_LENGTH
  {
    IssLinesArePlain();
    PlainLineIsTrimmed(IssName);
    PlainLineIsTrimmed(IssLine1);
    PlainLineIsTrimmed(IssLine2);
    ParseFormatRoundTrip(TleData(Ascii(IssName), Ascii(IssLine1), Ascii(IssLine2)));
  }

  /**
   * The documented example job: a fifteen-minute pass on 2025-09-19 from
   * 12:00 UTC, receiving on 145.8 MHz and sending on 437.5 MHz, with the
   * five uplink bytes of "Hello". `Job::new` accepts it and keeps the uplink,
   * so the job is one that transmits.
   */
  lemma IssExampleJob()
    ensures var tle := TleData(Ascii(IssName), Ascii(IssLine1), Ascii(IssLine2));
            var job := NewJob(12345, Ascii(IssName),
                              UtcDateTime(1758283200, 0), UtcDateTime(1758284100, 0),
                              tle, F64(0x41a1617680000000), F64(0x41ba13b860000000),
                              Some([72, 101, 108, 108, 111]));
            && job.uplink == Some([72, 101, 108, 108, 111])
            && job.tle == tle && WellFormed(job.tle)
  {
    IssLinesArePlain();
    PlainLineIsTrimmed(IssName);
    PlainLineIsTrimmed(IssLine1);
    PlainLineIsTrimmed(IssLine2);
  }
}
