/**
 * The usage examples that accompany the handler's operations in src/io.rs,
 * replayed on the model. Each example text gets lemmas that pin down the
 * reads it is made of; the methods then replay the example on a handler.
 * A floating-point read is a read of the token as a string here.
 */
module DocTests {
  import opened Wrappers
  import opened Decimal
  import opened Scan
  import opened IoHandler
  import opened RoundTrips

  // ---------------------------------------------------------------------------
  // Locating one read in a known text

  /** The read that starts at `i`, given where its token starts (`j`) and ends (`e`). */
  lemma NextTokenIs(s: string, i: nat, j: nat, e: nat)
    requires i <= j <= e <= |s|
    requires forall m :: i <= m < j ==> IsDelimiter(s[m])
    requires j < |s| ==> !IsDelimiter(s[j])
    requires forall m :: j <= m < e ==> !IsDelimiter(s[m])
    requires e < |s| ==> IsDelimiter(s[e])
    ensures NextToken(s, i) == (s[j..e], if e < |s| then e + 1 else e)
  {
    SkipDelimitersIs(s, i, j);
    TokenEndIs(s, j, e);
  }

  /** The `read_line` that starts at `i`, given where its line ends (`e`). */
  lemma NextLineIs(s: string, i: nat, e: nat)
    requires i <= e <= |s|
    requires forall m :: i <= m < e ==> !IsLineBreak(s[m])
    requires e < |s| ==> IsLineBreak(s[e])
    ensures NextLine(s, i) == (s[i..e], if e < |s| then e + 1 else e)
  {
    LineEndIs(s, i, e);
  }

  /** Text in which `-?\d+` can neither start nor continue a match. */
  predicate NumberFree(t: string)
  {
    forall m :: 0 <= m < |t| ==> !IsDigit(t[m]) && t[m] != '-'
  }

  /** Text with no digit and no minus sign adds no `-?\d+` match. */
  lemma {:induction false} NumberMatchesSkipText(t: string, rest: string)
    requires NumberFree(t)
    ensures NumberMatches(t + rest) == NumberMatches(rest)
    decreases |t|
  {
    if t != [] {
      assert t + rest == [t[0]] + (t[1..] + rest);
      NumberMatchesSkip(t[0], t[1..] + rest);
      NumberMatchesSkipText(t[1..], rest);
    } else {
      assert t + rest == rest;
    }
  }

  /** Three integers, with number-free text before and between them, give their three renderings. */
  lemma ThreeMatches(p1: string, x1: int, p2: string, x2: int, p3: string, x3: int)
    requires NumberFree(p1) && NumberFree(p2) && NumberFree(p3)
    requires p2 != [] && p3 != []
    ensures NumberMatches(p1 + (IntToString(x1) + (p2 + (IntToString(x2) + (p3 + IntToString(x3))))))
      == [IntToString(x1), IntToString(x2), IntToString(x3)]
  {
    var r3 := IntToString(x3);
    var r2 := IntToString(x2) + (p3 + r3);
    var r1 := IntToString(x1) + (p2 + r2);
    assert r3 == r3 + [];
    NumberMatchesOfInt(x3, []);
    NumberMatchesSkipText(p3, r3);
    NumberMatchesOfInt(x2, p3 + r3);
    NumberMatchesSkipText(p2, r2);
    NumberMatchesOfInt(x1, p2 + r2);
    NumberMatchesSkipText(p1, r1);
  }

  // ---------------------------------------------------------------------------
  // read: "1, hello -5.1\n-9"

  const ReadText := "1, hello -5.1\n-9"

  lemma ReadTextFirst()
    ensures NextToken(ReadText, 0) == ("1", 2)
  {
    NextTokenIs(ReadText, 0, 0, 1);
    assert ReadText[0..1] == "1";
  }

  lemma ReadTextSecond()
    ensures NextToken(ReadText, 2) == ("hello", 9)
  {
    NextTokenIs(ReadText, 2, 3, 8);
    assert ReadText[3..8] == "hello";
  }

  lemma ReadTextThird()
    ensures NextToken(ReadText, 9) == ("-5.1", 14)
  {
    NextTokenIs(ReadText, 9, 9, 13);
    assert ReadText[9..13] == "-5.1";
  }

  lemma ReadTextFourth()
    ensures NextToken(ReadText, 14) == ("-9", 16)
  {
    NextTokenIs(ReadText, 14, 14, 16);
    assert ReadText[14..16] == "-9";
  }

  /** `read`: 1 as an unsigned integer, "hello", the token "-5.1", then -9. */
  method ReadExample() returns (a: Result<nat, IoError>, b: string, c: string, d: Result<int, IoError>)
    ensures a == Success(1) && b == "hello" && c == "-5.1" && d == Success(-9)
  {
    var io := new Io(ReadText);
    ReadTextFirst();
    ReadTextSecond();
    ReadTextThird();
    ReadTextFourth();
    assert ParseUnsigned("1") == Some(1);
    assert ParseSigned("-9") == Some(-9);
    a := io.Read(ParseUnsigned);
    b := io.ReadToken();
    c := io.ReadToken();
    d := io.Read(ParseSigned);
  }

  /** Past the last token `read` gives the empty token, which no number type parses. */
  method ReadPastEndExample() returns (a: Result<int, IoError>, b: Result<int, IoError>)
    ensures a == Success(7) && b == Failure(ParseFailed(""))
  {
    var io := new Io(" 7 ,\n");
    a := io.Read(ParseSigned);
    b := io.Read(ParseSigned);
  }

  // ---------------------------------------------------------------------------
  // read_all and read_line: "test 1 +4, 1\nabc"

  const LineText := "test 1 +4, 1\nabc"

  /** `read_all` returns the text verbatim. */
  method ReadAllExample() returns (text: string)
    ensures text == LineText
  {
    var io := new Io(LineText);
    text := io.ReadAll();
  }

  lemma LineTextFirst()
    ensures NextLine(LineText, 0) == ("test 1 +4, 1", 13)
  {
    NextLineIs(LineText, 0, 12);
    assert LineText[0..12] == "test 1 +4, 1";
  }

  lemma LineTextSecond()
    ensures NextLine(LineText, 13) == ("abc", 16)
  {
    NextLineIs(LineText, 13, 16);
    assert LineText[13..16] == "abc";
  }

  /** `read_line` returns "test 1 +4, 1" and then "abc". */
  method ReadLineExample() returns (first: string, second: string)
    ensures first == "test 1 +4, 1" && second == "abc"
  {
    var io := new Io(LineText);
    LineTextFirst();
    LineTextSecond();
    first := io.ReadLine();
    second := io.ReadLine();
  }

  // ---------------------------------------------------------------------------
  // read_char: "a1, +"

  /** `read_char` gives 'a', '1', '+', and then fails for want of input. */
  method ReadCharExample() returns (a: Result<char, IoError>, b: Result<char, IoError>, c: Result<char, IoError>, d: Result<char, IoError>)
    ensures a == Success('a') && b == Success('1') && c == Success('+') && d == Failure(EndOfInput)
  {
    var io := new Io("a1, +");
    a := io.ReadChar();
    b := io.ReadChar();
    c := io.ReadChar();
    d := io.ReadChar();
  }

  // ---------------------------------------------------------------------------
  // idx and vec: "3\n0, 1, 2"

  const ListText := "3\n0, 1, 2"

  lemma ListTextLength()
    ensures NextToken(ListText, 0) == ("3", 2)
  {
    NextTokenIs(ListText, 0, 0, 1);
    assert ListText[0..1] == "3";
  }

  lemma ListTextEntries()
    ensures NextToken(ListText, 2) == ("0", 4)
    ensures NextToken(ListText, 4) == ("1", 7)
    ensures NextToken(ListText, 7) == ("2", 9)
  {
    NextTokenIs(ListText, 2, 2, 3);
    assert ListText[2..3] == "0";
    NextTokenIs(ListText, 4, 5, 6);
    assert ListText[5..6] == "1";
    NextTokenIs(ListText, 7, 8, 9);
    assert ListText[8..9] == "2";
  }

  /** The `-?\d+` matches after the first line are "0", "1" and "2". */
  lemma ListTextNumbers()
    ensures NumberMatches(ListText[2..]) == ["0", "1", "2"]
  {
    assert IntToString(0) == "0" && IntToString(1) == "1" && IntToString(2) == "2";
    assert ListText[2..] == [] + ("0" + (", " + ("1" + (", " + "2"))));
    ThreeMatches([], 0, ", ", 1, ", ", 2);
  }

  /** The three reads after the first line give "0", "1" and "2". */
  lemma ListTextVec()
    ensures NextTokens(ListText, 2, 3).0 == ["0", "1", "2"]
  {
    ListTextEntries();
    var s := ListText;
    assert NextTokens(s, 2, 0) == ([], 2);
    assert NextTokens(s, 2, 1).1 == 4;
    assert NextTokens(s, 2, 1).0 == ["0"];
    assert NextTokens(s, 2, 2).1 == 7;
    assert NextTokens(s, 2, 2).0 == ["0", "1"];
  }

  /** Every entry parses as `usize`. */
  lemma ListTextParses()
    ensures ParseEach(["0", "1", "2"], ParseUnsigned) == Some([0, 1, 2])
    ensures FirstUnparsed(["0", "1", "2"], ParseUnsigned) == 3
    ensures ParseUnsigned("0") == Some(0) && ParseUnsigned("1") == Some(1) && ParseUnsigned("2") == Some(2)
  {
    var ts := ["0", "1", "2"];
    assert ParseUnsigned("0") == Some(0) && ParseUnsigned("1") == Some(1) && ParseUnsigned("2") == Some(2);
    FirstUnparsedIs(ts, ParseUnsigned, 3);
    assert ParseEach(ts, ParseUnsigned).value == [0, 1, 2];
  }

  /** `idx` turns the 1-based 3 into 2, and the element of `nums` there is 2. */
  method IdxExample() returns (i: Result<nat, IoError>, v: Result<seq<nat>, IoError>)
    ensures i == Success(2) && v == Success([0, 1, 2])
    ensures v.value[i.value] == 2
  {
    var io := new Io(ListText);
    ListTextLength();
    ListTextNumbers();
    assert ParseUnsigned("3") == Some(3);
    ListTextParses();
    i := io.Idx();
    assert io.Rest() == ListText[2..];
    v := io.Nums(ParseUnsigned);
  }

  /** `vec` after reading its length: 3, then [0, 1, 2]. */
  method VecExample() returns (len: Result<nat, IoError>, v: Result<seq<nat>, IoError>)
    ensures len == Success(3) && v == Success([0, 1, 2])
  {
    var io := new Io(ListText);
    ListTextLength();
    assert ParseUnsigned("3") == Some(3);
    len := io.Read(ParseUnsigned);
    assert io.input == ListText && io.pos == 2;
    v := io.Vec(3, ParseUnsigned);
    ListTextVecResult(v);
  }

  /** What `vec` promises for the three entries after the length pins its result down to [0, 1, 2]. */
  lemma ListTextVecResult(r: Result<seq<nat>, IoError>)
    requires var ts := NextTokens(ListText, 2, 3).0; var k := FirstUnparsed(ts, ParseUnsigned);
      && (r.Success? <==> k == 3)
      && (r.Success? ==> |r.value| == 3 && forall j :: 0 <= j < 3 ==> r.value[j] == ParseUnsigned(ts[j]).value)
    ensures r == Success([0, 1, 2])
  {
    var ts := NextTokens(ListText, 2, 3).0;
    ListTextVec();
    ListTextParses();
    assert ts == ["0", "1", "2"] && FirstUnparsed(ts, ParseUnsigned) == 3;
    assert r.value[0] == ParseUnsigned(ts[0]).value == 0;
    assert r.value[1] == ParseUnsigned(ts[1]).value == 1;
    assert r.value[2] == ParseUnsigned(ts[2]).value == 2;
    assert r.value == [0, 1, 2];
  }

  // ---------------------------------------------------------------------------
  // chars: "abc, def"

  const CharsText := "abc, def"

  lemma CharsTextReads()
    ensures NextToken(CharsText, 0) == ("abc", 4)
    ensures NextToken(CharsText, 4) == ("def", 8)
  {
    NextTokenIs(CharsText, 0, 0, 3);
    assert CharsText[0..3] == "abc";
    NextTokenIs(CharsText, 4, 5, 8);
    assert CharsText[5..8] == "def";
  }

  /** `chars` gives the characters of "abc" and then those of "def". */
  method CharsExample() returns (first: seq<char>, second: seq<char>)
    ensures first == ['a', 'b', 'c'] && second == ['d', 'e', 'f']
  {
    var io := new Io(CharsText);
    CharsTextReads();
    first := io.Chars();
    second := io.Chars();
  }

  // ---------------------------------------------------------------------------
  // nums: "a: 12, b: -1 and d = 2"

  const NumsText := "a: 12, b: -1 and d = 2"

  /** The `-?\d+` matches are "12", "-1" and "2"; the letters and signs between add none. */
  lemma NumsTextNumbers()
    ensures NumberMatches(NumsText) == ["12", "-1", "2"]
  {
    assert IntToString(12) == "12" && IntToString(-1) == "-1" && IntToString(2) == "2";
    assert NumsText == "a: " + ("12" + (", b: " + ("-1" + (" and d = " + "2"))));
    ThreeMatches("a: ", 12, ", b: ", -1, " and d = ", 2);
  }

  /** Every match parses as `isize`. */
  lemma NumsTextParses()
    ensures ParseEach(["12", "-1", "2"], ParseSigned) == Some([12, -1, 2])
    ensures FirstUnparsed(["12", "-1", "2"], ParseSigned) == 3
  {
    var ms := ["12", "-1", "2"];
    ParseSignedOfDisplay(12);
    ParseSignedOfDisplay(-1);
    ParseSignedOfDisplay(2);
    assert IntToString(12) == "12" && IntToString(-1) == "-1" && IntToString(2) == "2";
    FirstUnparsedIs(ms, ParseSigned, 3);
    assert ParseEach(ms, ParseSigned).value == [12, -1, 2];
  }

  /** `nums` as signed integers gives [12, -1, 2]. */
  method NumsExample() returns (v: Result<seq<int>, IoError>)
    ensures v == Success([12, -1, 2])
  {
    var io := new Io(NumsText);
    NumsTextNumbers();
    NumsTextParses();
    v := io.Nums(ParseSigned);
  }

  // ---------------------------------------------------------------------------
  // lines and line_io: "1, a\n2, b"

  const PairsText := "1, a\n2, b"

  lemma PairsTextLines()
    ensures Lines(PairsText) == ["1, a", "2, b"]
  {
    NewlineFromIs(PairsText, 0, 4);
    NewlineFromIs(PairsText, 5, 9);
    assert PairsText[0..4] == "1, a";
    assert PairsText[5..] == "2, b";
  }

  /** `lines` gives "1, a" and then "2, b". */
  method LinesExample() returns (ls: seq<string>)
    ensures ls == ["1, a", "2, b"]
  {
    var io := new Io(PairsText);
    PairsTextLines();
    ls := io.Lines();
  }

  lemma PairReads(n: char, c: char)
    ensures NextToken([n, ',', ' ', c], 0) == ([n], 2) <== !IsDelimiter(n)
    ensures NextToken([n, ',', ' ', c], 2) == ([c], 4) <== !IsDelimiter(c)
  {
    var s := [n, ',', ' ', c];
    if !IsDelimiter(n) {
      NextTokenIs(s, 0, 0, 1);
      assert s[0..1] == [n];
    }
    if !IsDelimiter(c) {
      NextTokenIs(s, 2, 3, 4);
      assert s[3..4] == [c];
    }
  }

  /** `line_io`: the first line's handler reads the pair (1, 'a'), the second's (2, 'b'). */
  method LineIoExample() returns (first: Result<(nat, char), IoError>, second: Result<(nat, char), IoError>)
    ensures first == Success((1, 'a')) && second == Success((2, 'b'))
  {
    var io := new Io(PairsText);
    PairsTextLines();
    var ios := io.LineIo();
    PairReads('1', 'a');
    PairReads('2', 'b');
    assert ParseUnsigned("1") == Some(1) && ParseUnsigned("2") == Some(2);
    var io1, io2 := ios[0], ios[1];
    assert io1.input == "1, a" && io1.pos == 0;
    assert io2.input == "2, b" && io2.pos == 0;
    first := io1.Tuple2(ParseUnsigned, ParseChar);
    second := io2.Tuple2(ParseUnsigned, ParseChar);
  }

  // ---------------------------------------------------------------------------
  // tuple: "1, hello, -5.1"

  const TupleText := "1, hello, -5.1"

  lemma TupleTextFirst()
    ensures NextToken(TupleText, 0) == ("1", 2)
  {
    NextTokenIs(TupleText, 0, 0, 1);
    assert TupleText[0..1] == "1";
  }

  lemma TupleTextSecond()
    ensures NextToken(TupleText, 2) == ("hello", 9)
  {
    NextTokenIs(TupleText, 2, 3, 8);
    assert TupleText[3..8] == "hello";
  }

  lemma TupleTextThird()
    ensures NextToken(TupleText, 9) == ("-5.1", 14)
  {
    NextTokenIs(TupleText, 9, 10, 14);
    assert TupleText[10..14] == "-5.1";
  }

  /** `tuple` of (u32, String, f32) gives 1, "hello" and the token "-5.1". */
  method TupleExample() returns (t: Result<(nat, string, string), IoError>)
    ensures t == Success((1, "hello", "-5.1"))
  {
    var io := new Io(TupleText);
    TupleTextFirst();
    TupleTextSecond();
    TupleTextThird();
    assert ParseUnsigned("1") == Some(1);
    t := io.Tuple3(ParseUnsigned, AnyToken, AnyToken);
  }

  // ---------------------------------------------------------------------------
  // write

  /** `write` of "Test\n" and then of 5 writes "Test\n5", all of it still buffered. */
  method WriteExample() returns (written: string, flushed: string)
    ensures written == "Test\n5" && flushed == []
  {
    var io := new Io([]);
    io.Write("Test\n", AnyToString);
    io.Write(5, IntToString);
    written := io.Output();
    flushed := io.sink;
  }

  /** `writeln("Test")` then `write(5)`: "Test\n5" is written, and the line "Test\n" is flushed. */
  method WritelnExample() returns (written: string, flushed: string)
    ensures written == "Test\n5" && flushed == "Test\n"
  {
    var io := new Io([]);
    io.Writeln("Test", AnyToString);
    io.Write(5, IntToString);
    written := io.Output();
    flushed := io.sink;
  }

  /** `write("Test")`, `nl()` twice, then `write(5)` writes "Test", an empty line and "5". */
  method NlExample() returns (written: string)
    ensures written == "Test\n\n5"
  {
    var io := new Io([]);
    io.Write("Test", AnyToString);
    io.Nl();
    io.Nl();
    io.Write(5, IntToString);
    written := io.Output();
  }
}
