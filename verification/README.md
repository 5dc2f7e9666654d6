# rustar-types job types, modelled in Dafny

This project models the job types of a satellite ground station (crate
`rustar-types`, module `jobs`). A job asks the station to track one satellite
pass. It records the job id, the satellite, the time window, the orbital
elements as a Two-Line Element (TLE) record, the receive and transmit
frequencies, and optional bytes to uplink.

The only logic in these types is the TLE text parser, `TleData::try_from`.
It splits a text into lines and rejects it if there are fewer than three. It
trims the first three lines, rejects a first data line and then a second data
line that is not 69 bytes long, and otherwise returns the three trimmed lines.
The model states that parser over the UTF-8 bytes of the text, because Rust's
`len()` counts bytes. It includes models of the two standard-library
operations the parser uses (`str::trim` over ASCII whitespace only; see the
`RustStr.Trim` line under "Left out"):

- `str::lines` splits at each `\n`. A piece ended by `\n` drops one
  trailing `\r`. A final `\n` adds no empty line, and the empty text has no
  lines. A last piece that no `\n` ends keeps a trailing `\r`, as in the
  standard library's implementation. The parser trims that `\r` away, so the
  result never depends on it (`RustStr.TrimStripCr`).
- `str::trim` removes whitespace from the front, then from the back of what
  is left.

Files:

- `wrappers.dfy`: Rust's `Option` and `Result`.
- `rust_str.dfy` (module `RustStr`): bytes, `str::lines`, `str::trim` and
  their properties.
- `jobs.dfy` (module `Jobs`): `TleData`, `TleParseError`, the parser
  `ParseTle`, `Job` with its constructor `NewJob`, and `JobStatus`.
- `job_examples.dfy` (module `JobExamples`): the documented ISS example.

The doc comment at `src/jobs/mod.rs:42` says that `tle1` and `tle2` must
carry valid checksums. The code does not enforce this: no checksum is
computed anywhere, and the model follows the code. The same comment speaks
of "69 characters", but the code compares byte lengths. The two agree for
ASCII TLE lines. A line holding multi-byte UTF-8 characters is measured in
bytes, as the model does.

Data model (module `Jobs`):

- `TleData` (`src/jobs/mod.rs:156-166`): the name line and the two data lines, as byte strings.
- `TleParseError` (`src/jobs/mod.rs:170-177`): `InsufficientLines`, `InvalidTle1Length`, `InvalidTle2Length`.
- `Job` (`src/jobs/mod.rs:47-131`): id, satellite id, start and end time, TLE, receive and transmit frequencies, optional uplink bytes.
- `JobStatus` (`src/jobs/mod.rs:134-140`): `Received`, `Scheduled`, `Started`, `Completed`, `Error`.

## Model

| member | source | states |
|---|---|---|
| `RustStr.Lines` | src/jobs/mod.rs:201 | `str::lines`: the empty text and only the empty text has no lines, and no line contains a line feed |
| `RustStr.LinesCount` | src/jobs/mod.rs:201 | the number of lines is the number of line feeds, plus one for an unterminated last piece |
| `RustStr.LinesCons` | src/jobs/mod.rs:201 | a piece followed by a line feed is the first line (less one trailing carriage return), followed by the lines of the rest |
| `RustStr.LinesSingle` | src/jobs/mod.rs:201 | a nonempty text without a line feed is a single line, kept whole |
| `RustStr.LinesAppendNewline` | src/jobs/mod.rs:201 | appending a line feed and more text keeps every earlier line; the last earlier line is kept up to `trim` |
| `RustStr.Trim` | src/jobs/mod.rs:207-209 | `str::trim`: the result is no longer than the input, holds only bytes of the input, and neither starts nor ends with whitespace |
| `RustStr.TrimUnique` | src/jobs/mod.rs:207-209 | the trim is fixed by what it leaves: a middle part with no surrounding whitespace between an all-whitespace prefix and an all-whitespace suffix |
| `RustStr.TrimNoSurrounding` | src/jobs/mod.rs:207-209 | text with no surrounding whitespace is unchanged by `trim` |
| `RustStr.TrimEmpty` | src/jobs/mod.rs:207-209 | `trim` gives the empty text exactly when the input is all whitespace |
| `RustStr.TrimIdempotent` | src/jobs/mod.rs:207-209 | trimming twice is trimming once |
| `RustStr.TrimPadded` | src/jobs/mod.rs:207-209 | whitespace added before and after a text does not change its trim |
| `RustStr.TrimStripCr` | src/jobs/mod.rs:201-209 | the carriage return that `lines` may leave on a line is removed by `trim` anyway |
| `Jobs.ParseTle` | src/jobs/mod.rs:200-221 | fewer than three lines gives `InsufficientLines`, checked first. Otherwise a trimmed line 1 that is not 69 bytes gives `InvalidTle1Length`, whatever line 2 holds. Otherwise a trimmed line 2 that is not 69 bytes gives `InvalidTle2Length`. On success the record holds the three trimmed lines and is well-formed: three trimmed lines, with both data lines 69 bytes long |
| `Jobs.InsufficientLinesByNewlines` | src/jobs/mod.rs:201-205 | `InsufficientLines` is returned exactly when the text has fewer than three line feeds, counting an unterminated last piece as one |
| `Jobs.LinesJoin3` | src/jobs/mod.rs:201 | three lines joined by line feeds split back into exactly those three lines |
| `Jobs.LinesTwoThen` | src/jobs/mod.rs:201 | two pieces each ended by a line feed are the first two lines, less one trailing carriage return each, followed by the lines of the rest |
| `Jobs.ParseJoin3` | src/jobs/mod.rs:201-220 | for a text made of three pieces joined by line feeds (carriage returns allowed, the last piece nonempty), the result depends only on their trims: line 1's length error, then line 2's, else the three trimmed lines |
| `Jobs.ParseJoin3Then` | src/jobs/mod.rs:201-220 | the same for three pieces followed by a line feed and any text, the third piece possibly empty: the rest is not read |
| `Jobs.ParseFormatRoundTrip` | src/jobs/mod.rs:156-220 | round trip: a well-formed `TleData` written as name, line 1 and line 2, joined by line feeds, parses back to itself |
| `Jobs.ParseFormatParse` | src/jobs/mod.rs:200-221 | a parsed record, written out and parsed again, is unchanged |
| `Jobs.ParseIgnoresLaterLines` | src/jobs/mod.rs:201-209 | once a text has three lines, appending a line feed and any text leaves the result unchanged |
| `Jobs.ParseTrimmedLines` | src/jobs/mod.rs:203-220 | two texts with three lines each whose first three lines trim alike parse alike |
| `Jobs.PaddedTrim` | src/jobs/mod.rs:207-209 | blanks around a line do not change its trim |
| `Jobs.ParseIgnoresPadding` | src/jobs/mod.rs:201-220 | blanks (any whitespace but a line feed) added before or after any of the three lines (the last line nonempty) change neither the outcome nor the fields |
| `Jobs.ParseIgnoresPaddingThen` | src/jobs/mod.rs:201-220 | the same when a line feed and any text follow the third line, which may then be empty |
| `Jobs.PaddingEmptyThirdLine` | src/jobs/mod.rs:201-218 | the limit of that property: two lines and a final line feed give `InsufficientLines`, but one blank after that line feed opens a third line that trims to empty and gives `InvalidTle2Length` |
| `Jobs.NewJob` | src/jobs/mod.rs:225-245 | `Job::new` never fails and stores each argument unchanged in its own field |
| `Jobs.NewJobReachesEveryJob` | src/jobs/mod.rs:225-245 | `Job::new` checks nothing: every job value is `Job::new` of its own fields, however its window, frequencies or TLE look |
| `Jobs.NewJobInjective` | src/jobs/mod.rs:225-245 | `Job::new` loses nothing: equal jobs come from equal arguments (a corollary of `NewJob`'s contract) |
| `JobExamples.IssExampleParses` | src/jobs/mod.rs:189-198 | the documented ISS text parses to `Ok`, with `tle0` = `ISS (ZARYA)` and both data lines 69 bytes |
| `JobExamples.IssExampleJob` | src/jobs/mod.rs:20-35 | the documented example job is accepted by `Job::new`, keeps its uplink bytes ("Hello") unchanged and carries a well-formed TLE |

## Left out

- TLE checksum validation: the doc comment at `src/jobs/mod.rs:42` asks for valid checksums, but the parser computes none, so the model has none either.
- Job validity (start before end, positive and finite frequencies, unique ids) and `JobStatus` transitions: the code has neither. `JobStatus` is modelled as a plain datatype with no operations.
- `f64` frequencies: kept as their 64-bit IEEE 754 pattern (`F64`), with no arithmetic, because the code performs none.
- `chrono::DateTime<Utc>`: kept as Unix seconds and nanoseconds (`UtcDateTime`), with no calendar and no comparison, because the code performs none.
- Serde and utoipa derives, JSON schema examples, and the `Debug` and `Clone` derives: these are serialisation and documentation done by libraries outside the crate.
- `RustStr.Trim`: only the ASCII whitespace bytes of `char::is_whitespace` are modelled (tab, line feed, vertical tab, form feed, carriage return, space). Non-ASCII Unicode whitespace such as U+00A0 or U+2028 is kept by the model, although Rust trims it.
- `RustStr.Lines` and `Jobs.ParseTle`: input is any byte sequence. The guarantee that a Rust `String` is valid UTF-8 is not modelled, and the parser does not depend on it.
- `Jobs.ParseIgnoresPadding`: padding is stated for blanks (space, tab, vertical tab, form feed, carriage return) only. A line feed used as padding changes how the text splits into lines. Texts with more lines are covered by `Jobs.ParseIgnoresPaddingThen`; the one case neither covers, an empty last line with nothing after it, is `Jobs.PaddingEmptyThirdLine`, where padding does change the result.
- `impl Into<String>` in `Job::new`: the satellite id is taken as bytes already; `into()` on a `String` is the identity.
- `src/telemetry/mod.rs` and `src/mqtt/telemetry.rs` are not part of this model: their constructors only wrap their arguments or draw a random UUID, and their measurements are `f32`.
