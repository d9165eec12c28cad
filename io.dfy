/**
 * The I/O handler of src/io.rs: a reader with a cursor over a finite input and
 * a buffered writer. The buffered reader is its input plus the cursor `pos`;
 * the buffered writer is the text still in its buffer (`pending`) and the text
 * already handed to the underlying writer (`sink`). A panic of the source
 * (an `unwrap` or `expect` that fails) is a `Failure` here.
 */
module IoHandler {
  import opened Wrappers
  import opened Decimal
  import opened Scan

  /** Why an operation of the handler panics. */
  datatype IoError =
    | ParseFailed(token: string)  // the token (or `nums` match) does not parse as the asked type
    | EndOfInput                  // `read_char` found nothing but delimiters
    | IndexUnderflow              // `idx` read 0, and 0 - 1 overflows usize
    | SameFile                    // `from_file_to_file` was given one name twice

  /** How many reads a sequence of `n` reads makes when the one at `failed` panics (`failed == n`: none does). */
  function ReadsMade(failed: nat, n: nat): nat
  {
    if failed < n then failed + 1 else n
  }

  /** `to_string` of a `char`. */
  function CharToString(c: char): (r: string)
    ensures |r| == 1 && r[0] == c
  {
    [c]
  }

  class Io {
    /** Everything the reader will ever deliver. */
    const input: string
    /** How much of `input` has been consumed. */
    var pos: nat
    /** Text written and held in the write buffer. */
    var pending: string
    /** Text handed on to the underlying writer by a flush. */
    var sink: string

    ghost predicate Valid()
      reads this
    {
      pos <= |input|
    }

    /** The input not consumed yet. */
    function Rest(): string
      reads this
      requires Valid()
    {
      input[pos..]
    }

    /** Everything written so far, flushed or not. */
    function Output(): string
      reads this
    {
      sink + pending
    }

    /** A handler over the given input with nothing written (`with_reader_and_writer`, `from_str`, `from_string`). */
    constructor (content: string)
      ensures Valid() && input == content && pos == 0
      ensures pending == [] && sink == []
    {
      input := content;
      pos := 0;
      pending := [];
      sink := [];
    }

    /**
     * `from_file_to_file`: a handler reading the file `nameIn` (whose content
     * is given) and writing to `nameOut`; it refuses to read and write the same
     * file.
     */
    static method FromFileToFile(nameIn: string, nameOut: string, content: string) returns (r: Result<Io, IoError>)
      ensures r.Failure? <==> nameIn == nameOut
      ensures r.Failure? ==> r.error == SameFile
      ensures r.Success? ==> fresh(r.value) && r.value.Valid() && r.value.input == content && r.value.pos == 0
      ensures r.Success? ==> r.value.pending == [] && r.value.sink == []
    {
      if nameIn == nameOut {
        return Failure(SameFile);
      }
      var io := new Io(content);
      return Success(io);
    }

    // -------------------------------------------------------------------------
    // Writing

    /** `write`: appends the value's text to the write buffer; the reader is untouched. */
    method Write<S>(value: S, toString: S -> string)
      modifies this`pending
      ensures pending == old(pending) + toString(value)
      ensures Output() == old(Output()) + toString(value)
      ensures pos == old(pos)
    {
      pending := pending + toString(value);
    }

    /** `nl`: writes a single line feed. */
    method Nl()
      modifies this`pending
      ensures pending == old(pending) + "\n"
      ensures Output() == old(Output()) + "\n"
      ensures pos == old(pos)
    {
      Write('\n', CharToString);
    }

    /** `flush`: hands the buffered text on to the underlying writer; what has been written is unchanged. */
    method Flush()
      modifies this`pending, this`sink
      ensures sink == old(sink) + old(pending) && pending == []
      ensures Output() == old(Output())
      ensures pos == old(pos)
    {
      sink := sink + pending;
      pending := [];
    }

    /** `writeln`: `write`, then `nl`, then `flush`. */
    method Writeln<S>(value: S, toString: S -> string)
      modifies this`pending, this`sink
      ensures sink == old(sink) + old(pending) + toString(value) + "\n" && pending == []
      ensures Output() == old(Output()) + toString(value) + "\n"
      ensures pos == old(pos)
    {
      Write(value, toString);
      Nl();
      Flush();
    }

    // -------------------------------------------------------------------------
    // Reading

    /**
     * `read::<String>()`: the byte loop of `read`. Skips the delimiter run,
     * collects the delimiter-free run after it, and drops the delimiter that
     * stopped the collection. `String` parsing never fails, so at the end of
     * the input this returns the empty token.
     */
    method ReadToken() returns (token: string)
      requires Valid()
      modifies this`pos
      ensures Valid()
      ensures token == NextToken(input, old(pos)).0
      ensures pos == NextToken(input, old(pos)).1
    {
      while pos < |input| && IsDelimiter(input[pos])
        invariant old(pos) <= pos <= |input|
        invariant SkipDelimiters(input, pos) == SkipDelimiters(input, old(pos))
        decreases |input| - pos
      {
        pos := pos + 1;
      }
      var start := pos;
      while pos < |input| && !IsDelimiter(input[pos])
        invariant start <= pos <= |input|
        invariant TokenEnd(input, pos) == TokenEnd(input, start)
        decreases |input| - pos
      {
        pos := pos + 1;
      }
      token := input[start..pos];
      if pos < |input| {
        pos := pos + 1;
      }
    }

    /**
     * `read::<T>()`: one token, parsed by `parse` (the type's `FromStr`);
     * a token that does not parse, such as the empty token at the end of the
     * input for a number type, is a failure.
     */
    method Read<T>(parse: string -> Option<T>) returns (r: Result<T, IoError>)
      requires Valid()
      modifies this`pos
      ensures Valid()
      ensures pos == NextToken(input, old(pos)).1
      ensures var t := NextToken(input, old(pos)).0;
        && (r.Success? <==> parse(t).Some?)
        && (r.Success? ==> r.value == parse(t).value)
        && (r.Failure? ==> r.error == ParseFailed(t))
    {
      var t := ReadToken();
      var v := parse(t);
      if v.None? {
        return Failure(ParseFailed(t));
      }
      return Success(v.value);
    }

    /** `read_all`: the rest of the input, verbatim; the reader is left at the end. */
    method ReadAll() returns (text: string)
      requires Valid()
      modifies this`pos
      ensures Valid() && pos == |input|
      ensures text == old(Rest())
      ensures old(input[..pos]) + text == input
    {
      text := input[pos..];
      pos := |input|;
    }

    /**
     * `read_line`: the bytes up to the first line feed or carriage return,
     * without skipping anything first; the terminator is consumed and dropped.
     */
    method ReadLine() returns (line: string)
      requires Valid()
      modifies this`pos
      ensures Valid()
      ensures line == NextLine(input, old(pos)).0
      ensures pos == NextLine(input, old(pos)).1
    {
      var start := pos;
      while pos < |input| && !IsLineBreak(input[pos])
        invariant start <= pos <= |input|
        invariant LineEnd(input, pos) == LineEnd(input, start)
        decreases |input| - pos
      {
        pos := pos + 1;
      }
      line := input[start..pos];
      if pos < |input| {
        pos := pos + 1;
      }
    }

    /**
     * `read_char`: skips the delimiter run and takes the one byte after it;
     * a failure when only delimiters were left.
     */
    method ReadChar() returns (r: Result<char, IoError>)
      requires Valid()
      modifies this`pos
      ensures Valid()
      ensures pos == NextChar(input, old(pos)).1
      ensures r.Success? <==> NextChar(input, old(pos)).0.Some?
      ensures r.Success? ==> r.value == NextChar(input, old(pos)).0.value
      ensures r.Failure? ==> r.error == EndOfInput
    {
      while pos < |input| && IsDelimiter(input[pos])
        invariant old(pos) <= pos <= |input|
        invariant SkipDelimiters(input, pos) == SkipDelimiters(input, old(pos))
        decreases |input| - pos
      {
        pos := pos + 1;
      }
      if pos == |input| {
        return Failure(EndOfInput);
      }
      r := Success(input[pos]);
      pos := pos + 1;
    }

    /**
     * `idx`: a 1-based index read as `usize` and turned 0-based. A token that
     * is not a `usize`, or the index 0, is a failure.
     */
    method Idx() returns (r: Result<nat, IoError>)
      requires Valid()
      modifies this`pos
      ensures Valid()
      ensures pos == NextToken(input, old(pos)).1
      ensures var t := NextToken(input, old(pos)).0; var v := ParseUnsigned(t);
        && (r.Success? <==> v.Some? && v.value >= 1)
        && (r.Success? ==> r.value + 1 == v.value)
        && (r.Failure? ==> r.error == if v.None? then ParseFailed(t) else IndexUnderflow)
    {
      var n := Read(ParseUnsigned);
      if n.Failure? {
        return Failure(n.error);
      }
      if n.value == 0 {
        return Failure(IndexUnderflow);
      }
      return Success(n.value - 1);
    }

    /**
     * `vec(n)`: `n` reads in a row, in order. The first token that does not
     * parse ends it with a failure, and no further token is consumed.
     */
    method Vec<T>(n: nat, parse: string -> Option<T>) returns (r: Result<seq<T>, IoError>)
      requires Valid()
      modifies this`pos
      ensures Valid()
      ensures var ts := NextTokens(input, old(pos), n).0; var k := FirstUnparsed(ts, parse);
        && (r.Success? <==> k == n)
        && (r.Success? ==> |r.value| == n && forall j :: 0 <= j < n ==> r.value[j] == parse(ts[j]).value)
        && (r.Failure? ==> r.error == ParseFailed(ts[k]))
        && pos == NextTokens(input, old(pos), ReadsMade(k, n)).1
    {
      ghost var start := pos;
      ghost var ts := NextTokens(input, start, n).0;
      var values: seq<T> := [];
      var i := 0;
      while i < n
        invariant i <= n && Valid()
        invariant pos == NextTokens(input, start, i).1
        invariant |values| == i
        invariant forall j :: 0 <= j < i ==> parse(ts[j]) == Some(values[j])
      {
        NextTokensAt(input, start, n, i);
        var t := ReadToken();
        var v := parse(t);
        if v.None? {
          FirstUnparsedIs(ts, parse, i);
          return Failure(ParseFailed(t));
        }
        values := values + [v.value];
        i := i + 1;
      }
      FirstUnparsedIs(ts, parse, n);
      return Success(values);
    }

    /** `chars`: the characters of the next token. */
    method Chars() returns (cs: seq<char>)
      requires Valid()
      modifies this`pos
      ensures Valid()
      ensures cs == NextToken(input, old(pos)).0
      ensures pos == NextToken(input, old(pos)).1
    {
      cs := ReadToken();
    }

    /** `lines`: drains the input and splits it into lines as `str::lines` does. */
    method Lines() returns (ls: seq<string>)
      requires Valid()
      modifies this`pos
      ensures Valid() && pos == |input|
      ensures ls == Scan.Lines(old(Rest()))
    {
      var text := ReadAll();
      ls := Scan.Lines(text);
    }

    /**
     * `line_io`: drains the input and gives a new handler per line, each
     * reading exactly that line and with nothing written.
     */
    method LineIo() returns (ios: seq<Io>)
      requires Valid()
      modifies this`pos
      ensures Valid() && pos == |input|
      ensures |ios| == |Scan.Lines(old(Rest()))|
      ensures forall k :: 0 <= k < |ios| ==>
        && fresh(ios[k]) && ios[k].Valid()
        && ios[k].input == Scan.Lines(old(Rest()))[k] && ios[k].pos == 0
        && ios[k].pending == [] && ios[k].sink == []
      ensures forall j, k :: 0 <= j < k < |ios| ==> ios[j] != ios[k]
    {
      var ls := Lines();
      ios := [];
      var i := 0;
      while i < |ls|
        invariant i <= |ls| && |ios| == i
        invariant Valid() && pos == |input| && ls == Scan.Lines(old(Rest()))
        invariant forall k :: 0 <= k < i ==>
          && fresh(ios[k]) && ios[k].Valid()
          && ios[k].input == ls[k] && ios[k].pos == 0
          && ios[k].pending == [] && ios[k].sink == []
        invariant forall j, k :: 0 <= j < k < i ==> ios[j] != ios[k]
      {
        var io := new Io(ls[i]);
        ios := ios + [io];
        i := i + 1;
      }
    }

    /**
     * `nums`: drains the input and parses every `-?\d+` match in it, in
     * order; a match that does not parse as the asked type is a failure.
     */
    method Nums<T>(parse: string -> Option<T>) returns (r: Result<seq<T>, IoError>)
      requires Valid()
      modifies this`pos
      ensures Valid() && pos == |input|
      ensures var ms := NumberMatches(old(Rest())); var k := FirstUnparsed(ms, parse);
        && (r.Success? <==> k == |ms|)
        && (r.Success? ==> r.value == ParseEach(ms, parse).value)
        && (r.Failure? ==> r.error == ParseFailed(ms[k]))
    {
      var text := ReadAll();
      var ms := NumberMatches(text);
      var values := ParseEach(ms, parse);
      if values.None? {
        return Failure(ParseFailed(ms[FirstUnparsed(ms, parse)]));
      }
      return Success(values.value);
    }

    // -------------------------------------------------------------------------
    // Tuples (the `Tuple` impls for arities 2 to 6): one read per component,
    // left to right; the first component that does not parse ends the read
    // with a failure, right after its token.

    method Tuple2<A, B>(pa: string -> Option<A>, pb: string -> Option<B>)
      returns (r: Result<(A, B), IoError>)
      requires Valid()
      modifies this`pos
      ensures Valid()
      ensures var t1 := NextToken(input, old(pos)); var t2 := NextToken(input, t1.1);
        && (r.Success? <==> pa(t1.0).Some? && pb(t2.0).Some?)
        && (r.Success? ==> r.value == (pa(t1.0).value, pb(t2.0).value))
        && (r.Failure? ==> r.error == ParseFailed(if pa(t1.0).None? then t1.0 else t2.0))
        && pos == (if pa(t1.0).None? then t1.1 else t2.1)
    {
      var a := Read(pa);
      if a.Failure? {
        return Failure(a.error);
      }
      var b := Read(pb);
      if b.Failure? {
        return Failure(b.error);
      }
      return Success((a.value, b.value));
    }

    method Tuple3<A, B, C>(pa: string -> Option<A>, pb: string -> Option<B>, pc: string -> Option<C>)
      returns (r: Result<(A, B, C), IoError>)
      requires Valid()
      modifies this`pos
      ensures Valid()
      ensures var t1 := NextToken(input, old(pos)); var t2 := NextToken(input, t1.1); var t3 := NextToken(input, t2.1);
        && (r.Success? <==> pa(t1.0).Some? && pb(t2.0).Some? && pc(t3.0).Some?)
        && (r.Success? ==> r.value == (pa(t1.0).value, pb(t2.0).value, pc(t3.0).value))
        && (r.Failure? ==> r.error == ParseFailed(if pa(t1.0).None? then t1.0 else if pb(t2.0).None? then t2.0 else t3.0))
        && pos == (if pa(t1.0).None? then t1.1 else if pb(t2.0).None? then t2.1 else t3.1)
    {
      var a := Read(pa);
      if a.Failure? {
        return Failure(a.error);
      }
      var b := Read(pb);
      if b.Failure? {
        return Failure(b.error);
      }
      var c := Read(pc);
      if c.Failure? {
        return Failure(c.error);
      }
      return Success((a.value, b.value, c.value));
    }

    method Tuple4<A, B, C, D>(pa: string -> Option<A>, pb: string -> Option<B>, pc: string -> Option<C>, pd: string -> Option<D>)
      returns (r: Result<(A, B, C, D), IoError>)
      requires Valid()
      modifies this`pos
      ensures Valid()
      ensures var t1 := NextToken(input, old(pos)); var t2 := NextToken(input, t1.1); var t3 := NextToken(input, t2.1); var t4 := NextToken(input, t3.1);
        && (r.Success? <==> pa(t1.0).Some? && pb(t2.0).Some? && pc(t3.0).Some? && pd(t4.0).Some?)
        && (r.Success? ==> r.value == (pa(t1.0).value, pb(t2.0).value, pc(t3.0).value, pd(t4.0).value))
        && (r.Failure? ==> r.error == ParseFailed(if pa(t1.0).None? then t1.0 else if pb(t2.0).None? then t2.0 else if pc(t3.0).None? then t3.0 else t4.0))
        && pos == (if pa(t1.0).None? then t1.1 else if pb(t2.0).None? then t2.1 else if pc(t3.0).None? then t3.1 else t4.1)
    {
      var a := Read(pa);
      if a.Failure? {
        return Failure(a.error);
      }
      var b := Read(pb);
      if b.Failure? {
        return Failure(b.error);
      }
      var c := Read(pc);
      if c.Failure? {
        return Failure(c.error);
      }
      var d := Read(pd);
      if d.Failure? {
        return Failure(d.error);
      }
      return Success((a.value, b.value, c.value, d.value));
    }

    method Tuple5<A, B, C, D, E>(pa: string -> Option<A>, pb: string -> Option<B>, pc: string -> Option<C>, pd: string -> Option<D>, pe: string -> Option<E>)
      returns (r: Result<(A, B, C, D, E), IoError>)
      requires Valid()
      modifies this`pos
      ensures Valid()
      ensures var t1 := NextToken(input, old(pos)); var t2 := NextToken(input, t1.1); var t3 := NextToken(input, t2.1); var t4 := NextToken(input, t3.1); var t5 := NextToken(input, t4.1);
        && (r.Success? <==> pa(t1.0).Some? && pb(t2.0).Some? && pc(t3.0).Some? && pd(t4.0).Some? && pe(t5.0).Some?)
        && (r.Success? ==> r.value == (pa(t1.0).value, pb(t2.0).value, pc(t3.0).value, pd(t4.0).value, pe(t5.0).value))
        && (r.Failure? ==> r.error == ParseFailed(if pa(t1.0).None? then t1.0 else if pb(t2.0).None? then t2.0 else if pc(t3.0).None? then t3.0 else if pd(t4.0).None? then t4.0 else t5.0))
        && pos == (if pa(t1.0).None? then t1.1 else if pb(t2.0).None? then t2.1 else if pc(t3.0).None? then t3.1 else if pd(t4.0).None? then t4.1 else t5.1)
    {
      var a := Read(pa);
      if a.Failure? {
        return Failure(a.error);
      }
      var b := Read(pb);
      if b.Failure? {
        return Failure(b.error);
      }
      var c := Read(pc);
      if c.Failure? {
        return Failure(c.error);
      }
      var d := Read(pd);
      if d.Failure? {
        return Failure(d.error);
      }
      var e := Read(pe);
      if e.Failure? {
        return Failure(e.error);
      }
      return Success((a.value, b.value, c.value, d.value, e.value));
    }

    method Tuple6<A, B, C, D, E, F>(pa: string -> Option<A>, pb: string -> Option<B>, pc: string -> Option<C>, pd: string -> Option<D>, pe: string -> Option<E>, pf: string -> Option<F>)
      returns (r: Result<(A, B, C, D, E, F), IoError>)
      requires Valid()
      modifies this`pos
      ensures Valid()
      ensures var t1 := NextToken(input, old(pos)); var t2 := NextToken(input, t1.1); var t3 := NextToken(input, t2.1); var t4 := NextToken(input, t3.1); var t5 := NextToken(input, t4.1); var t6 := NextToken(input, t5.1);
        && (r.Success? <==> pa(t1.0).Some? && pb(t2.0).Some? && pc(t3.0).Some? && pd(t4.0).Some? && pe(t5.0).Some? && pf(t6.0).Some?)
        && (r.Success? ==> r.value == (pa(t1.0).value, pb(t2.0).value, pc(t3.0).value, pd(t4.0).value, pe(t5.0).value, pf(t6.0).value))
        && (r.Failure? ==> r.error == ParseFailed(if pa(t1.0).None? then t1.0 else if pb(t2.0).None? then t2.0 else if pc(t3.0).None? then t3.0 else if pd(t4.0).None? then t4.0 else if pe(t5.0).None? then t5.0 else t6.0))
        && pos == (if pa(t1.0).None? then t1.1 else if pb(t2.0).None? then t2.1 else if pc(t3.0).None? then t3.1 else if pd(t4.0).None? then t4.1 else if pe(t5.0).None? then t5.1 else t6.1)
    {
      var a := Read(pa);
      if a.Failure? {
        return Failure(a.error);
      }
      var b := Read(pb);
      if b.Failure? {
        return Failure(b.error);
      }
      var c := Read(pc);
      if c.Failure? {
        return Failure(c.error);
      }
      var d := Read(pd);
      if d.Failure? {
        return Failure(d.error);
      }
      var e := Read(pe);
      if e.Failure? {
        return Failure(e.error);
      }
      var f := Read(pf);
      if f.Failure? {
        return Failure(f.error);
      }
      return Success((a.value, b.value, c.value, d.value, e.value, f.value));
    }
  }
}
