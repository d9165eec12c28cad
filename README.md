# cp-rs I/O handler, 2-D points and graph nodes in Dafny

This project models the core of cp-rs, a competitive-programming helper crate, and proves properties of that model:

- **The `Io` handler (src/io.rs).**
  - *Reader.* The reader is a cursor over a fixed input text. `read` skips a run of delimiters (space, line feed, carriage return, tab, comma). It returns the longest delimiter-free run after them. It also drops the one delimiter that ended that run.
  - *Derived reads.* `read_line`, `read_char`, `read_all`, `idx`, `vec`, `chars` and `tuple` (arities 2 to 6) are all built on that cursor.
  - *Draining reads.* `lines`, `line_io` and `nums` take all remaining text. `lines` and `line_io` split it into lines as Rust's `str::lines` does. `nums` collects every leftmost, greedy `-?\d+` match.
  - *Writer.* The writer is a buffer (`pending`) in front of the flushed output (`sink`). `write`, `nl`, `writeln` and `flush` append to them.
- **`Point2D` (src/geometry.rs)** over integers:
  - componentwise `+ - * / %`, with Rust's truncating `/` and `%`
  - the compound assignments, which update a point variable in place
  - the two quarter-turn rotations
  - the `Display` form
- **`Node` (src/graph.rs):** a node holding an id, a payload and a set of edge targets.

## Module layout

- `Wrappers`: `Option` and `Result`.
- `Decimal`: the decimal text of integers, i.e. `Display` for `usize`/`isize` and their `FromStr` parsers.
- `Scan`: pure functions over the input text. They give the outcome of one `read`, `read_char` and `read_line`, of `n` successive reads, of the `str::lines` split and of the `-?\d+` scan, together with the lemmas that characterize them.
- `IoHandler`: the class `Io`.
  - Its fields are the input, the cursor `pos`, and the writer's `pending` buffer and `sink`.
  - `ReadToken`, `ReadLine` and `ReadChar` scan the input byte by byte in loops. Each is proved equal to its `Scan` function.
  - `ReadAll` returns the rest of the input as one slice.
  - `Lines` and `Nums` drain the input with `ReadAll`. They then apply `Scan.Lines`, or `Scan.NumberMatches` and `Scan.ParseEach`, to that text. `LineIo` is built on `Lines`.
  - `Read`, `Idx`, `Vec`, `Chars` and `Tuple2` to `Tuple6` are built on `ReadToken` and `Read`.
  - The writing methods change only the writer fields.
- `Geometry`: the `Point2D` datatype and its operators, plus the class `PointVar` for the `&mut self` operations.
- `Graph`: the class `Node`.
- `RoundTrips`: what the writer produces, read back by the reader.
- `DocTests`: the usage examples in the doc comments of src/io.rs, replayed on a handler.

Failures are values:
- A parse that would `unwrap` an `Err`, a `read_char` on exhausted input, `idx` on 0 and `from_file_to_file` with one name twice are all modelled. Each returns a `Failure` carrying an `IoError`, where Rust panics.
- After a failing read the cursor stands where Rust's reader had left it when the panic came.

## Model

| member | source | states |
|---|---|---|
| Decimal.NatToString | src/io.rs:44-48 | The text written for a non-negative integer is non-empty, all decimal digits, and has no leading zero. |
| Decimal.IntToString | src/io.rs:44-48 | The text written for an integer is non-empty and starts with '-' exactly when the value is negative. |
| Decimal.IntToStringShape | src/io.rs:44-48 | The text written for any integer is digits after a '-' exactly when the value is negative. |
| Decimal.ParseUnsigned | src/io.rs:136-140 | Parsing a token as `usize` fails on the empty token, and any value it gives is below 2^64. |
| Decimal.ParseSigned | src/io.rs:136-140 | Parsing a token as `isize` fails on the empty token, and any value it gives lies in [-2^63, 2^63). |
| Decimal.AnyToken | src/io.rs:136-140 | Reading a `String` accepts every token, the empty one included, and gives it back unchanged. |
| Decimal.ParseChar | src/io.rs:136-140 | Reading a `char` succeeds exactly on a one-character token and gives that character. |
| Decimal.DigitsValueOfNatToString | src/io.rs:44-48 | The digits written for n have the value n. |
| Decimal.ParseUnsignedOfDisplay | src/io.rs:136-140 | Parsing as `usize` the text written for n < 2^64 gives n back. |
| Decimal.ParseSignedOfDisplay | src/io.rs:136-140 | Parsing as `isize` the text written for any x in the `isize` range gives x back. |
| Scan.SkipDelimiters | src/io.rs:133 | The delimiter skip stops at or after the cursor, at a non-delimiter or at the end. |
| Scan.SkipDelimitersSkips | src/io.rs:133 | Every byte the skip passes over is a delimiter. |
| Scan.SkipDelimitersIs | src/io.rs:133 | Any index reached over delimiters alone that stops at a non-delimiter or the end is where the skip stops. |
| Scan.TokenEnd | src/io.rs:134 | The token run stops at or after its start, at a delimiter or at the end. |
| Scan.TokenEndSpans | src/io.rs:134 | No byte inside the token run is a delimiter. |
| Scan.TokenEndIs | src/io.rs:134 | The token run ends at the first delimiter and nowhere else. |
| Scan.LineEnd | src/io.rs:179 | The line run of `read_line` stops at a line feed, a carriage return, or the end. |
| Scan.LineEndSpans | src/io.rs:179 | No byte inside the line run is a line feed or carriage return. |
| Scan.LineEndIs | src/io.rs:179 | The line run ends at the first line feed or carriage return and nowhere else. |
| Scan.NewlineFrom | src/io.rs:273 | The `str::lines` split point is a line feed or the end. |
| Scan.NewlineFromSpans | src/io.rs:273 | No line feed lies before the split point. |
| Scan.NewlineFromIs | src/io.rs:273 | The split point is the first line feed and nowhere else. |
| Scan.DigitsEnd | src/io.rs:323-324 | A digit run stops at a non-digit or the end. |
| Scan.DigitsEndSpans | src/io.rs:323-324 | Every byte inside a digit run is a digit. |
| Scan.DigitsEndIs | src/io.rs:323-324 | A digit run ends at the first non-digit and nowhere else. |
| Scan.NextToken | src/io.rs:127-141 | One read returns a token no longer than what it consumed and never moves the cursor past the end. |
| Scan.NextTokenConsumes | src/io.rs:127-141 | One read consumes a delimiter run, then a maximal delimiter-free token, then one delimiter or nothing at the end. The token is empty exactly when only delimiters were left, and then the cursor goes to the end. |
| Scan.TokensFrom | src/io.rs:133-134 | The reference token list of the rest of the input has no more entries than bytes are left. |
| Scan.TokensAreTokens | src/io.rs:133-134 | Every entry of the reference token list is non-empty and free of delimiters. |
| Scan.NextTokenTakesFirstToken | src/io.rs:127-141 | A read delivers the first remaining token and leaves exactly the remaining ones, so no token is delivered twice or skipped. When none is left it delivers the empty token and the cursor goes to the end. |
| Scan.NextTokens | src/io.rs:236-238 | `n` successive reads give exactly `n` tokens and keep the cursor within the input. |
| Scan.NextTokensPrefix | src/io.rs:236-238 | The first `k` of `n` successive reads are the `k` reads made alone. |
| Scan.NextTokensAt | src/io.rs:236-238 | The k-th of `n` successive reads is the read made after the first `k`. |
| Scan.NextTokensWithinTokens | src/io.rs:236-238 | Up to the token count, `n` reads deliver the first `n` tokens in order and leave the others. |
| Scan.NextTokensPastTokens | src/io.rs:236-238 | Beyond the token count, reads deliver all tokens and then empty tokens, and leave the cursor at the end. |
| Scan.ReadsPastTokens | src/io.rs:236-238 | `k` reads beyond the token count add exactly `k` empty tokens and leave no token behind; one or more of them leave the cursor at the end. |
| Scan.NextChar | src/io.rs:200-208 | One `read_char` keeps the cursor within the input. |
| Scan.NextCharConsumes | src/io.rs:200-208 | `read_char` consumes a delimiter run and then the one non-delimiter byte it returns. It returns nothing, having consumed everything, exactly when only delimiters were left. |
| Scan.NextCharStartsNextToken | src/io.rs:200-208 | `read_char` returns the first byte of the token `read` would return from the same cursor. |
| Scan.NextLine | src/io.rs:173-184 | One `read_line` returns a line no longer than what it consumed and stays within the input. |
| Scan.NextLineConsumes | src/io.rs:173-184 | `read_line` returns the bytes up to the first line feed or carriage return, with no delimiter skipping, and consumes that one terminator. |
| Scan.NextLines | src/io.rs:173-184 | `n` successive `read_line` calls give `n` lines. |
| Scan.LinesFrom | src/io.rs:271-274 | The `str::lines` split of the rest of the text is empty exactly when no text is left, and no line holds a line feed. |
| Scan.Lines | src/io.rs:271-274 | The split of the drained text has no line exactly when the text is empty, and no line holds a line feed. |
| Scan.LinesRebuildText | src/io.rs:271-274 | Without carriage returns, terminating each line with a line feed rebuilds the drained text. A line feed is added when the text did not end with one. |
| Scan.LinesRebuildCrlfText | src/io.rs:271-274 | With Windows line ends only, the carriage return before each line feed is dropped: ending each line with "\r\n" rebuilds the drained text, plus "\r\n" when the text did not end with a line feed. |
| Scan.LineEndIsNewline | src/io.rs:271-274 | Without carriage returns, `read_line` stops where `str::lines` splits. |
| Scan.NextLinesAreLines | src/io.rs:271-274 | Without carriage returns, one `read_line` per line yields exactly the lines `lines` returns, and ends at the end of the input. |
| Scan.NumberMatches | src/io.rs:323-326 | Every match of the `nums` scan is a `-?\d+` literal: digits, optionally after one minus sign. |
| Scan.NumberMatchesKeepDigits | src/io.rs:323-326 | The scan skips no digit: the matches, written one after another, hold exactly the digits of the text, in order. |
| Scan.NumberMatchesAreGreedy | src/io.rs:323-326 | Each match is the text at its own span. Its digit run stops only at a non-digit or the end. A match starting with a digit has no digit or minus sign just before it. The spans come left to right without overlapping. |
| Scan.ParseEach | src/io.rs:324-326 | Parsing every match succeeds exactly when each one parses, and then gives their values in order. |
| Scan.FirstUnparsed | src/io.rs:324-326 | The index of the first entry whose `unwrap` would panic: all before it parse and it does not. |
| IoHandler.CharToString | src/io.rs:307-309 | The text of a character is that one character. |
| IoHandler.Io.constructor | src/io.rs:402-407 | A handler over a text starts with the cursor at 0 and nothing written. |
| IoHandler.Io.FromFileToFile | src/io.rs:357-362 | Fails exactly when both file names are equal; otherwise a fresh handler over the file's content. |
| IoHandler.Io.Write | src/io.rs:44-48 | Appends the value's text to the buffered output and leaves the cursor alone. |
| IoHandler.Io.Nl | src/io.rs:307-309 | Appends exactly one line feed and leaves the cursor alone. |
| IoHandler.Io.Flush | src/io.rs:105-109 | Moves the buffer to the flushed output, so the total output is unchanged. |
| IoHandler.Io.Writeln | src/io.rs:62-66 | Writes the value, then a line feed, then flushes; the flushed output grows by exactly that text. |
| IoHandler.Io.ReadToken | src/io.rs:127-135 | The byte-by-byte skip and take loops deliver the token of one read and move the cursor as it does. |
| IoHandler.Io.Read | src/io.rs:127-141 | Gives the parsed token, or a failure naming the token when it does not parse. Either way the cursor moves as one read does. |
| IoHandler.Io.ReadAll | src/io.rs:154-160 | Returns the remaining text verbatim and leaves the cursor at the end. |
| IoHandler.Io.ReadLine | src/io.rs:173-184 | Returns the line of one `read_line` and moves the cursor past its terminator. |
| IoHandler.Io.ReadChar | src/io.rs:200-208 | Returns the byte of one `read_char`, or a failure for want of input, and moves the cursor accordingly. |
| IoHandler.Io.Idx | src/io.rs:221-223 | Succeeds exactly when the token parses as `usize` and is at least 1, giving that value minus 1. Otherwise it fails with a parse failure or an underflow. |
| IoHandler.Io.Vec | src/io.rs:236-238 | Succeeds exactly when all `n` successive tokens parse, and then holds their values in order. Otherwise it fails at the first token that does not parse, and the cursor stops right after that token. |
| IoHandler.Io.Chars | src/io.rs:287-289 | Returns the characters of the next token. |
| IoHandler.Io.Lines | src/io.rs:271-274 | Drains the input and returns its `str::lines` split. |
| IoHandler.Io.LineIo | src/io.rs:252-258 | Drains the input and returns one new, distinct handler per line. Each reads exactly that line from cursor 0, with nothing written. |
| IoHandler.Io.Nums | src/io.rs:321-327 | Drains the input. Succeeds exactly when every `-?\d+` match parses, giving their values in order. Otherwise it fails naming the first match that does not parse. |
| IoHandler.Io.Tuple2 | src/io.rs:442-446 | Two reads, left to right. Succeeds exactly when both parse. The first failing component names its token and stops the reads right after it. |
| IoHandler.Io.Tuple3 | src/io.rs:457-462 | The same for three components. |
| IoHandler.Io.Tuple4 | src/io.rs:474-480 | The same for four components. |
| IoHandler.Io.Tuple5 | src/io.rs:493-500 | The same for five components. |
| IoHandler.Io.Tuple6 | src/io.rs:514-522 | The same for six components. |
| Geometry.TruncDiv | src/geometry.rs:226-231 | Rust's `/` on integers: the quotient's multiple of b never exceeds a in size, and what is left is smaller than b in size. |
| Geometry.TruncRem | src/geometry.rs:278-283 | Rust's `%` on integers: a is b times the truncating quotient plus the remainder, which is smaller than b in size and has the sign of a. |
| Geometry.TruncDivOfMultiple | src/geometry.rs:226-231 | Dividing an exact multiple of b by b gives the factor back with remainder 0, whatever the signs. |
| Geometry.Add | src/geometry.rs:72-77 | `p + q` has the origin as its unit on either side. |
| Geometry.Sub | src/geometry.rs:123-128 | `(p - q) + q == p`, and `p - q` is the origin exactly when p equals q. |
| Geometry.Mul | src/geometry.rs:174-179 | For a nonzero s, `(p * s) / s == p` and `(p * s) % s` is the origin. |
| Geometry.Div | src/geometry.rs:226-231 | Scaling `p / s` back by s and adding `p % s` gives p. |
| Geometry.Rem | src/geometry.rs:278-283 | Each coordinate of `p % s` is smaller than s in size and has the sign of p's coordinate. |
| Geometry.RotatedCw | src/geometry.rs:364-368 | A clockwise quarter turn keeps the length, is perpendicular to p, and lies clockwise of p. |
| Geometry.RotatedCcw | src/geometry.rs:382-386 | A counter-clockwise quarter turn is undone by a clockwise one and lies counter-clockwise of p. |
| Geometry.Display | src/geometry.rs:22-24 | The `Display` form is the two coordinates' text inside parentheses, four characters longer than the two texts together. |
| Geometry.SubUndoesAdd | src/geometry.rs:123-128 | `(p + q) - q == p` and `(p - q) + q == p`. |
| Geometry.AddIsCommutativeMonoid | src/geometry.rs:72-77 | `+` is commutative and associative, with the origin as unit. |
| Geometry.DivRemSplit | src/geometry.rs:278-283 | `(p / s) * s + p % s == p`. Each remainder coordinate is smaller than s in size and has the sign of p's coordinate. |
| Geometry.RotationsAreInverse | src/geometry.rs:382-386 | A clockwise and a counter-clockwise quarter turn undo each other. |
| Geometry.RotatedCwFourTimes | src/geometry.rs:364-368 | Four clockwise turns are the identity; three are one counter-clockwise turn. |
| Geometry.RotationIsLinearIsometry | src/geometry.rs:364-368 | A quarter turn keeps the squared length and commutes with addition and scaling. |
| Geometry.OperatorExamples | src/geometry.rs:66-70 | The documented results of the operators: (1,2)+(1,2)=(2,4), (2,3)-(1,2)=(1,1), (1,2)*2=(2,4), (2,4)/2=(1,2), (4,5)%3=(1,2), and the rotations of (1,2) are (2,-1) and (-2,1). |
| Geometry.TruncationExamples | src/geometry.rs:226-231 | Division and remainder round toward zero: (-7,7)/2=(-3,3), (-7,7)%2=(-1,1), and likewise for the divisor -2. |
| Geometry.PointVar.constructor | src/geometry.rs:48-50 | A new variable holds the given point. |
| Geometry.PointVar.AddAssign | src/geometry.rs:96-101 | After `p += q`, p is the old p plus q. |
| Geometry.PointVar.SubAssign | src/geometry.rs:147-152 | After `p -= q`, p is the old p minus q. |
| Geometry.PointVar.MulAssign | src/geometry.rs:199-204 | After `p *= s`, p is the old p times s. |
| Geometry.PointVar.DivAssign | src/geometry.rs:251-256 | After `p /= s`, p is the old p divided by s. |
| Geometry.PointVar.RemAssign | src/geometry.rs:303-308 | After `p %= s`, p is the old p remainder s. |
| Geometry.PointVar.RotCw | src/geometry.rs:364-368 | The in-place steps leave the clockwise turn of the old point. |
| Geometry.PointVar.RotCcw | src/geometry.rs:382-386 | The in-place steps leave the counter-clockwise turn of the old point. |
| Geometry.AddAssignExamples | src/geometry.rs:84-95 | The documented results of `+=`: (1,2) += (3,4) is (4,6), and (1,2) += (1,2) is (2,4). |
| Geometry.SubDivAssignExamples | src/geometry.rs:135-145 | The documented results of `-=` and `/=`: (1,2) -= (1,1) is (0,1), and (2,4) /= 2 is (1,2). |
| Geometry.RotationExamples | src/geometry.rs:351-381 | The documented results of `rotcw` and `rotccw` on (1,2): (2,-1) and (-2,1). |
| Graph.Node.constructor | src/graph.rs:17-20 | A new node has the given id and data and no edges. |
| Graph.Node.AddConnection | src/graph.rs:22-24 | The edges become the old edges plus `to`. Adding an existing target changes nothing, and id and data stay the same. |
| Graph.AddConnectionTwice | src/graph.rs:22-24 | Adding the same connection twice leaves the edges of adding it once. |
| Graph.Connected | src/graph.rs:22-24 | After adding each target in turn, the edges are exactly the old edges and the targets. |
| Graph.ConnectedIgnoresOrderAndRepeats | src/graph.rs:11 | The edges after a series of additions depend neither on the order of the targets nor on repeats. |
| RoundTrips.Renders | src/io.rs:44-48 | The written text of each integer, in order. |
| RoundTrips.ParseRenders | src/io.rs:136-140 | Parsing each written integer as `isize` gives the integers back. |
| RoundTrips.NumberMatchesSkip | src/io.rs:323-326 | A byte that is neither a digit nor a minus sign starts no match. |
| RoundTrips.NumberMatchesOfInt | src/io.rs:323-326 | A written integer followed by a non-digit is matched whole, as one match. |
| RoundTrips.NumberMatchesOfWritten | src/io.rs:321-327 | The `nums` scan of integers written one per line finds exactly their texts. |
| RoundTrips.NumberMatchesOfDisplay | src/geometry.rs:22-24 | The `nums` scan of a point's `Display` form finds its two coordinates. |
| RoundTrips.RenderIsToken | src/io.rs:133-134 | A written integer is a token: non-empty and free of delimiters. |
| RoundTrips.TokensFromShift | src/io.rs:133-134 | The tokens after a prefix do not depend on the prefix. |
| RoundTrips.TokensOfWritten | src/io.rs:62-66 | The tokens of tokens written one per line are those tokens. |
| RoundTrips.WrittenTokensReadBack | src/io.rs:236-238 | As many reads as there are tokens written one per line give them back in order. |
| RoundTrips.WritelnAll | src/io.rs:62-66 | `writeln` of each integer flushes their texts, one per line. |
| RoundTrips.WrittenPrefixIsTerminated | src/io.rs:62-66 | The text the first i `writeln` calls leave is the first i renderings, each followed by a line feed. |
| RoundTrips.WritelnThenVec | src/io.rs:236-238 | `vec` over that output gives the integers back. |
| RoundTrips.WritelnThenNums | src/io.rs:321-327 | `nums` over that output gives the integers back. |
| RoundTrips.WritelnPointThenNums | src/geometry.rs:22-24 | `nums` over a point written with `writeln` gives its coordinates back. |
| DocTests.NextTokenIs | src/io.rs:127-141 | A read from a cursor over a known layout of delimiters and token gives that token and cursor. |
| DocTests.NextLineIs | src/io.rs:173-184 | A `read_line` over a known layout gives that line and cursor. |
| DocTests.NumberMatchesSkipText | src/io.rs:323-326 | Text with no digit and no minus sign adds no match. |
| DocTests.ThreeMatches | src/io.rs:323-326 | Three integers, with number-free text before and between them, give their three texts. |
| DocTests.ReadExample | src/io.rs:116-125 | On "1, hello -5.1\n-9", the reads give 1, "hello", the token "-5.1" and -9. |
| DocTests.ReadPastEndExample | src/io.rs:127-141 | Past the last token a numeric read fails on the empty token. |
| DocTests.ReadAllExample | src/io.rs:149-152 | `read_all` returns "test 1 +4, 1\nabc" verbatim. |
| DocTests.ReadLineExample | src/io.rs:166-171 | `read_line` gives "test 1 +4, 1" and then "abc". |
| DocTests.ReadCharExample | src/io.rs:192-198 | `read_char` on "a1, +" gives 'a', '1', '+', and then fails. |
| DocTests.IdxExample | src/io.rs:216-219 | On "3\n0, 1, 2", `idx` gives 2, `nums` gives [0, 1, 2], and the element there is 2. |
| DocTests.VecExample | src/io.rs:231-234 | On "3\n0, 1, 2", reading the length 3 and then `vec` gives [0, 1, 2]. |
| DocTests.ListTextVecResult | src/io.rs:231-234 | Any result meeting `vec`'s promise for the three entries after the length is [0, 1, 2]. |
| DocTests.CharsExample | src/io.rs:281-285 | `chars` on "abc, def" gives ['a','b','c'] and then ['d','e','f']. |
| DocTests.NumsExample | src/io.rs:317-319 | `nums` on "a: 12, b: -1 and d = 2" gives [12, -1, 2]. |
| DocTests.LinesExample | src/io.rs:265-269 | `lines` on "1, a\n2, b" gives "1, a" and "2, b". |
| DocTests.LineIoExample | src/io.rs:245-250 | The per-line handlers of "1, a\n2, b" read the pairs (1, 'a') and (2, 'b'). |
| DocTests.TupleExample | src/io.rs:423-428 | `tuple` on "1, hello, -5.1" gives 1, "hello" and the token "-5.1". |
| DocTests.WriteExample | src/io.rs:34-43 | Writing "Test\n" and then 5 writes "Test\n5", all of it still buffered. |
| DocTests.WritelnExample | src/io.rs:52-61 | `writeln("Test")` then `write(5)` writes "Test\n5", of which the line "Test\n" is flushed. |
| DocTests.NlExample | src/io.rs:292-306 | `write("Test")`, two `nl()` and `write(5)` write "Test", an empty line and "5". |

## Left out

- Real I/O is not modelled. This covers stdin, stdout and files, the constructors that open them (src/io.rs:332-398), and the operating-system effect of `flush`. A handler is built over a given text. `from_file_to_file` takes the input file's content as a parameter and keeps only its check that the two names differ.
- `BufWriter` flushing on its own when its buffer fills, or on drop, is not modelled. Output reaches the sink only through `flush` and `writeln`, and `Output()` (sink plus buffer) is what the program has written either way.
- The handlers from `line_io` share the process's stdout. Each modelled handler has a writer of its own.
- Input is text with one character per byte, so UTF-8 validation and decoding in `from_utf8` are not modelled. `\d` is read as an ASCII digit, although the regex crate's `\d` also matches other Unicode digits.
- The regex engine is not modelled. The `-?\d+` scan is specified directly as leftmost, greedy, non-overlapping matches.
- Generic `FromStr` becomes a parse function passed to each read.
  - Only `usize` and `isize` are defined, as 64-bit types.
  - `String` is `Decimal.AnyToken` and `char` is `Decimal.ParseChar`.
  - Floating-point reads (`f32` in the examples) are modelled as reads of the token text.
- `writed`/`writedln` (src/io.rs:79-102) are not modelled, because they depend on arbitrary `Debug` implementations.
- The geometry model drops the floating-point parts. `len` and `dot` (src/geometry.rs:325-344) and the floating-point `*=` example are not modelled.
- Geometry.Div: coordinates are unbounded integers, so fixed-width overflow is not modelled. Examples are `i64::MIN / -1` and a `*` or `+` that leaves the type's range.
- Geometry.PointVar.DivAssign: like `Div`, no fixed-width overflow.
- IoHandler.Io.Idx: index 0 is a failure, as in a debug build, which panics on the `usize` underflow. A release build would wrap around to `usize::MAX` instead.
- IoHandler.Io.Read: after a parse failure the model goes on, with the cursor past the failing token. In Rust the panic ends the program.
- The `Graph` arena struct (src/graph.rs:4-6) is not modelled, because it has no operations.
- src/utils.rs, src/main.rs and src/lib.rs are not part of this model. They hold re-exports, a demo and a smoke test.
- `lines` follows the current `str::lines`. A carriage return is dropped only before a line feed, so a final line ending in a bare carriage return keeps it. The doc comment of `lines` shows its second line as "2, 5", which is a slip for "2, b".
