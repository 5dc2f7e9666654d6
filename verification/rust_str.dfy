/**
 * The two string operations of Rust's standard library that the TLE parser
 * relies on, `str::lines` and `str::trim`, over the UTF-8 bytes of a `String`.
 * Lengths are byte counts, as `str::len` returns them.
 */
module RustStr {
  import opened Wrappers

  /** One byte of the UTF-8 encoding of a Rust `String`. */
  newtype byte = x: int | 0 <= x < 256

  /** Line feed, `'\n'`. */
  const NL: byte := 10
  /** Carriage return, `'\r'`. */
  const CR: byte := 13

  /**
   * The ASCII bytes that `char::is_whitespace` accepts: tab, line feed,
   * vertical tab, form feed, carriage return and space.
   */
  predicate IsWhitespace(b: byte) {
    b == 9 || b == 10 || b == 11 || b == 12 || b == 13 || b == 32
  }

  /**
   * Whitespace other than a line feed: tab, vertical tab, form feed,
   * carriage return and space.
   */
  predicate IsBlank(b: byte) {
    b == 9 || b == 11 || b == 12 || b == 13 || b == 32
  }

  predicate AllWhitespace(s: seq<byte>) {
    forall i | 0 <= i < |s| :: IsWhitespace(s[i])
  }

  predicate AllBlank(s: seq<byte>) {
    forall i | 0 <= i < |s| :: IsBlank(s[i])
  }

  /** `s` neither starts nor ends with whitespace (what `trim` leaves). */
  predicate NoSurroundingWhitespace(s: seq<byte>) {
    s == [] || (!IsWhitespace(s[0]) && !IsWhitespace(s[|s| - 1]))
  }

  /** Number of occurrences of `b` in `s`. */
  function Count(s: seq<byte>, b: byte): nat {
    if s == [] then 0 else (if s[0] == b then 1 else 0) + Count(s[1..], b)
  }

  /** Position of the first `b` in `s`, as `str::find` reports it. */
  function IndexOf(s: seq<byte>, b: byte): (r: Option<nat>)
    ensures r.None? <==> b !in s
    ensures r.Some? ==> r.value < |s| && s[r.value] == b && b !in s[..r.value]
  {
    if s == [] then None
    else if s[0] == b then Some(0)
    else match IndexOf(s[1..], b)
      case None => None
      case Some(i) =>
        assert s[..i + 1] == [s[0]] + s[1..][..i];
        Some(i + 1)
  }

  /** Drops one trailing carriage return, as `str::lines` does for a piece ended by a line feed. */
  function StripCr(s: seq<byte>): seq<byte> {
    if s != [] && s[|s| - 1] == CR then s[..|s| - 1] else s
  }

  /**
   * `str::lines`: the pieces of `s` between line feeds. A piece that a line
   * feed ends loses one trailing carriage return; a final line feed opens no
   * extra, empty line; the empty string has no lines at all. A last piece
   * that no line feed ends keeps a trailing carriage return.
   */
  function Lines(s: seq<byte>): (r: seq<seq<byte>>)
    ensures |r| == 0 <==> s == []
    ensures forall i | 0 <= i < |r| :: NL !in r[i]
    decreases |s|
  {
    if s == [] then []
    else match IndexOf(s, NL)
      case None => [s]
      case Some(k) =>
        assert forall b | b in StripCr(s[..k]) :: b in s[..k];
        [StripCr(s[..k])] + Lines(s[k + 1..])
  }

  /** The first index at or after `i` whose byte is not whitespace, or `|s|`. */
  function SkipWhitespace(s: seq<byte>, i: nat): (k: nat)
    requires i <= |s|
    ensures i <= k <= |s|
    ensures forall j | i <= j < k :: IsWhitespace(s[j])
    ensures k == |s| || !IsWhitespace(s[k])
    decreases |s| - i
  {
    if i < |s| && IsWhitespace(s[i]) then SkipWhitespace(s, i + 1) else i
  }

  /**
   * Scanning back from `j` but not past `lo`: the index just after the last
   * byte that is not whitespace, or `lo`.
   */
  function SkipWhitespaceBack(s: seq<byte>, lo: nat, j: nat): (k: nat)
    requires lo <= j <= |s|
    ensures lo <= k <= j
    ensures forall i | k <= i < j :: IsWhitespace(s[i])
    ensures k == lo || !IsWhitespace(s[k - 1])
    decreases j
  {
    if lo < j && IsWhitespace(s[j - 1]) then SkipWhitespaceBack(s, lo, j - 1) else j
  }

  /**
   * `str::trim`: the part of `s` left once the leading whitespace, and then
   * the trailing whitespace of what remains, is gone. It is no longer than
   * `s`, holds only bytes of `s`, and has no surrounding whitespace.
   */
  function Trim(s: seq<byte>): (r: seq<byte>)
    ensures |r| <= |s|
    ensures forall b | b in r :: b in s
    ensures NoSurroundingWhitespace(r)
  {
    var start := SkipWhitespace(s, 0);
    var end := SkipWhitespaceBack(s, start, |s|);
    s[start..end]
  }

  // ---------------------------------------------------------------------------
  // Properties of Trim
  // ---------------------------------------------------------------------------

  /**
   * `trim` is determined by what it leaves: a middle part with no
   * surrounding whitespace, between a prefix and a suffix made only of
   * whitespace.
   */
  lemma TrimUnique(s: seq<byte>, a: nat, b: nat)
    requires a <= b <= |s|
    requires forall i | 0 <= i < a :: IsWhitespace(s[i])
    requires forall i | b <= i < |s| :: IsWhitespace(s[i])
    requires NoSurroundingWhitespace(s[a..b])
    ensures Trim(s) == s[a..b]
  {
    var start := SkipWhitespace(s, 0);
    var end := SkipWhitespaceBack(s, start, |s|);
    if a < b {
      assert !IsWhitespace(s[a]) && !IsWhitespace(s[b - 1]);
      assert start == a;
      assert end == b;
    } else {
      assert start == |s|;
    }
  }

  /** Trimming text that has no surrounding whitespace changes nothing. */
  lemma TrimNoSurrounding(m: seq<byte>)
    requires NoSurroundingWhitespace(m)
    ensures Trim(m) == m
  {
    assert m[0..|m|] == m;
    TrimUnique(m, 0, |m|);
  }

  /** `trim` leaves nothing exactly when the text is all whitespace. */
  lemma TrimEmpty(s: seq<byte>)
    ensures Trim(s) == [] <==> AllWhitespace(s)
  {
    if AllWhitespace(s) {
      TrimUnique(s, |s|, |s|);
    }
  }

  /** `trim` is idempotent. */
  lemma TrimIdempotent(s: seq<byte>)
    ensures Trim(Trim(s)) == Trim(s)
  {
    TrimNoSurrounding(Trim(s));
  }

  /**
   * Whitespace added before or after a text does not change what `trim`
   * returns.
   */
  lemma TrimPadded(p: seq<byte>, m: seq<byte>, q: seq<byte>)
    requires AllWhitespace(p) && AllWhitespace(q)
    ensures Trim(p + m + q) == Trim(m)
  {
    var s := p + m + q;
    var start := SkipWhitespace(m, 0);
    var end := SkipWhitespaceBack(m, start, |m|);
    assert s[|p| + start..|p| + end] == m[start..end];
    WhitespaceBefore(p, m, q, start);
    WhitespaceAfter(p, m, q, end);
    TrimUnique(s, |p| + start, |p| + end);
  }

  lemma WhitespaceBefore(p: seq<byte>, m: seq<byte>, q: seq<byte>, start: nat)
    requires AllWhitespace(p) && start <= |m|
    requires forall j | 0 <= j < start :: IsWhitespace(m[j])
    ensures forall i | 0 <= i < |p| + start :: IsWhitespace((p + m + q)[i])
  {
    forall i | 0 <= i < |p| + start
      ensures IsWhitespace((p + m + q)[i])
    {
      if i >= |p| { assert (p + m + q)[i] == m[i - |p|]; }
    }
  }

  lemma WhitespaceAfter(p: seq<byte>, m: seq<byte>, q: seq<byte>, end: nat)
    requires AllWhitespace(q) && end <= |m|
    requires forall j | end <= j < |m| :: IsWhitespace(m[j])
    ensures forall i | |p| + end <= i < |p + m + q| :: IsWhitespace((p + m + q)[i])
  {
    forall i | |p| + end <= i < |p + m + q|
      ensures IsWhitespace((p + m + q)[i])
    {
      if i < |p| + |m| { assert (p + m + q)[i] == m[i - |p|]; }
      else { assert (p + m + q)[i] == q[i - |p| - |m|]; }
    }
  }

  /** `trim` removes a trailing carriage return anyway. */
  lemma TrimStripCr(s: seq<byte>)
    ensures Trim(StripCr(s)) == Trim(s)
  {
    if s != [] && s[|s| - 1] == CR {
      assert s == [] + StripCr(s) + [CR];
      TrimPadded([], StripCr(s), [CR]);
    }
  }

  // ---------------------------------------------------------------------------
  // Properties of Lines
  // ---------------------------------------------------------------------------

  lemma {:induction false} CountAppend(a: seq<byte>, c: seq<byte>, b: byte)
    ensures Count(a + c, b) == Count(a, b) + Count(c, b)
    decreases |a|
  {
    if a == [] {
      assert a + c == c;
    } else {
      assert (a + c)[1..] == a[1..] + c;
      CountAppend(a[1..], c, b);
    }
  }

  lemma {:induction false} CountAbsent(s: seq<byte>, b: byte)
    requires b !in s
    ensures Count(s, b) == 0
    decreases |s|
  {
    if s != [] {
      assert forall x | x in s[1..] :: x in s;
      CountAbsent(s[1..], b);
    }
  }

  /**
   * The number of lines is the number of line feeds, plus one for a last
   * piece that no line feed ends.
   */
  lemma {:induction false} LinesCount(s: seq<byte>)
    ensures |Lines(s)| == Count(s, NL) + (if s != [] && s[|s| - 1] != NL then 1 else 0)
    decreases |s|
  {
    if s != [] {
      match IndexOf(s, NL)
      case None =>
        CountAbsent(s, NL);
        assert s[|s| - 1] in s;
      case Some(k) =>
        var rest := s[k + 1..];
        assert s == s[..k] + [NL] + rest;
        CountAppend(s[..k] + [NL], rest, NL);
        CountAppend(s[..k], [NL], NL);
        CountAbsent(s[..k], NL);
        LinesCount(rest);
        if rest != [] {
          assert s[|s| - 1] == rest[|rest| - 1];
        }
    }
  }

  /** A line feed after a piece without one ends the first line. */
  lemma LinesCons(l: seq<byte>, rest: seq<byte>)
    requires NL !in l
    ensures Lines(l + [NL] + rest) == [StripCr(l)] + Lines(rest)
  {
    var s := l + [NL] + rest;
    assert s[|l|] == NL && s[..|l|] == l;
    assert s[|l| + 1..] == rest;
  }

  /** A nonempty piece without a line feed is one line, kept whole. */
  lemma LinesSingle(l: seq<byte>)
    requires l != [] && NL !in l
    ensures Lines(l) == [l]
  {
  }

  /**
   * Appending a line feed and anything else to `s` keeps the lines of `s`;
   * only the last one can lose a trailing carriage return, which `trim`
   * removes anyway.
   */
  lemma {:induction false} LinesAppendNewline(s: seq<byte>, t: seq<byte>)
    requires s != []
    ensures ExtendsUpToTrim(Lines(s + [NL] + t), Lines(s))
    decreases |s|
  {
    match IndexOf(s, NL)
    case None =>
      LinesSingle(s);
      LinesCons(s, t);
      TrimStripCr(s);
      assert ExtendsUpToTrim(Lines(s + [NL] + t), Lines(s));
    case Some(k) =>
      var head, rest := s[..k], s[k + 1..];
      assert s == head + [NL] + rest;
      assert s + [NL] + t == head + [NL] + (rest + [NL] + t);
      LinesCons(head, rest);
      LinesCons(head, rest + [NL] + t);
      if rest == [] {
        assert rest + [NL] + t == [] + [NL] + t;
        LinesCons([], t);
        assert Lines(s) == [StripCr(head)];
      } else {
        LinesAppendNewline(rest, t);
        ExtendAfterHead(StripCr(head), Lines(rest), Lines(rest + [NL] + t));
      }
  }

  /**
   * The nonempty line list `lines'` starts with `lines`, except that its
   * version of the last line of `lines` need only agree once trimmed.
   */
  predicate ExtendsUpToTrim(lines': seq<seq<byte>>, lines: seq<seq<byte>>) {
    && 0 < |lines| <= |lines'|
    && (forall i | 0 <= i < |lines| - 1 :: lines'[i] == lines[i])
    && Trim(lines'[|lines| - 1]) == Trim(lines[|lines| - 1])
  }

  /** Putting the same line in front of two line lists keeps their agreement. */
  lemma ExtendAfterHead(h: seq<byte>, tail: seq<seq<byte>>, tail': seq<seq<byte>>)
    requires ExtendsUpToTrim(tail', tail)
    ensures ExtendsUpToTrim([h] + tail', [h] + tail)
  {
  }
}
