/**
 * What the writer produces, read back by the reader: integers written one per
 * line come back from `vec` and from `nums`, tokens written one per line come
 * back from successive reads, and a point's `Display` form gives its two
 * coordinates back to `nums`.
 */
module RoundTrips {
  import opened Wrappers
  import opened Decimal
  import opened Scan
  import opened IoHandler
  import opened Geometry

  /** The `Display` text of each integer, in order. */
  function Renders(xs: seq<int>): (ts: seq<string>)
    ensures |ts| == |xs| && forall k :: 0 <= k < |xs| ==> ts[k] == IntToString(xs[k])
    decreases |xs|
  {
    if xs == [] then [] else [IntToString(xs[0])] + Renders(xs[1..])
  }

  /** Every value fits in `isize`. */
  predicate AllInI64(xs: seq<int>)
  {
    forall k :: 0 <= k < |xs| ==> InI64(xs[k])
  }

  /** Parsing each rendered integer as `isize` gives the integers back. */
  lemma ParseRenders(xs: seq<int>)
    requires AllInI64(xs)
    ensures ParseEach(Renders(xs), ParseSigned) == Some(xs)
  {
    var ts := Renders(xs);
    forall k | 0 <= k < |xs|
      ensures ParseSigned(ts[k]) == Some(xs[k])
    {
      ParseSignedOfDisplay(xs[k]);
    }
    assert ParseEach(ts, ParseSigned).value == xs;
  }

  lemma RendersSnoc(xs: seq<int>, i: nat)
    requires i < |xs|
    ensures Renders(xs[..i + 1]) == Renders(xs[..i]) + [IntToString(xs[i])]
  {
    assert xs[..i + 1][i] == xs[i];
  }

  lemma TerminatedSnoc(ls: seq<string>, l: string)
    ensures Terminated(ls + [l]) == Terminated(ls) + l + "\n"
    decreases |ls|
  {
    if ls != [] {
      assert (ls + [l])[1..] == ls[1..] + [l];
      TerminatedSnoc(ls[1..], l);
    }
  }

  // ---------------------------------------------------------------------------
  // nums over written text

  lemma NumberMatchesSkip(c: char, rest: string)
    requires !IsDigit(c) && c != '-'
    ensures NumberMatches([c] + rest) == NumberMatches(rest)
  {
    assert ([c] + rest)[1..] == rest;
  }

  /** A rendered integer followed by a non-digit is matched whole, as one `-?\d+` match. */
  lemma NumberMatchesOfInt(x: int, rest: string)
    requires rest == [] || !IsDigit(rest[0])
    ensures NumberMatches(IntToString(x) + rest) == [IntToString(x)] + NumberMatches(rest)
  {
    var d := IntToString(x);
    var s := d + rest;
    IntToStringShape(x);
    if x < 0 {
      assert forall m :: 1 <= m < |d| ==> s[m] == d[1..][m - 1];
      assert IsDigit(s[1]);
      DigitsEndIs(s, 1, |d|);
    } else {
      assert forall m :: 0 <= m < |d| ==> s[m] == d[m];
      DigitsEndIs(s, 0, |d|);
    }
    assert s[..|d|] == d && s[|d|..] == rest;
  }

  /** `nums` over integers written one per line finds exactly their renderings. */
  lemma {:induction false} NumberMatchesOfWritten(xs: seq<int>)
    ensures NumberMatches(Terminated(Renders(xs))) == Renders(xs)
    decreases |xs|
  {
    if xs != [] {
      var rs := Renders(xs);
      var tail := Terminated(rs[1..]);
      assert rs[1..] == Renders(xs[1..]);
      NumberMatchesOfWritten(xs[1..]);
      assert Terminated(rs) == IntToString(xs[0]) + (['\n'] + tail);
      NumberMatchesOfInt(xs[0], ['\n'] + tail);
      NumberMatchesSkip('\n', tail);
    }
  }

  /** `nums` over a point's `Display` form (and a line feed) finds its two coordinates. */
  lemma NumberMatchesOfDisplay(p: Point2D)
    ensures NumberMatches(Display(p) + "\n") == [IntToString(p.x), IntToString(p.y)]
  {
    var sx, sy := IntToString(p.x), IntToString(p.y);
    var close := [')', '\n'];
    var afterY := sy + close;
    var afterComma := [' '] + afterY;
    var afterX := [','] + afterComma;
    assert Display(p) + "\n" == ['('] + (sx + afterX);
    NumberMatchesSkip('(', sx + afterX);
    NumberMatchesOfInt(p.x, afterX);
    NumberMatchesSkip(',', afterComma);
    NumberMatchesSkip(' ', afterY);
    NumberMatchesOfInt(p.y, close);
    NumberMatchesSkip(')', ['\n']);
    NumberMatchesSkip('\n', []);
  }

  // ---------------------------------------------------------------------------
  // read over written tokens

  /** A rendered integer is a token: no delimiter in it. */
  lemma RenderIsToken(x: int)
    ensures IsToken(IntToString(x))
  {
    IntToStringShape(x);
    var s := IntToString(x);
    forall c | c in s
      ensures !IsDelimiter(c)
    {
      var m :| 0 <= m < |s| && s[m] == c;
      if x < 0 && m > 0 {
        assert s[1..][m - 1] == c;
      }
    }
  }

  lemma {:induction false} TokenEndShift(p: string, b: string, j: nat)
    requires j <= |b|
    ensures TokenEnd(p + b, |p| + j) == |p| + TokenEnd(b, j)
    decreases |b| - j
  {
    if j < |b| && !IsDelimiter(b[j]) {
      TokenEndShift(p, b, j + 1);
    }
  }

  /** The tokens of a text after a prefix do not depend on the prefix. */
  lemma {:induction false} TokensFromShift(p: string, b: string, j: nat)
    requires j <= |b|
    ensures TokensFrom(p + b, |p| + j) == TokensFrom(b, j)
    decreases |b| - j
  {
    var s := p + b;
    if j < |b| {
      assert s[|p| + j] == b[j];
      if IsDelimiter(b[j]) {
        TokensFromShift(p, b, j + 1);
        assert TokensFrom(s, |p| + j) == TokensFrom(s, |p| + j + 1);
      } else {
        var e := TokenEnd(b, j);
        TokenEndShift(p, b, j);
        assert s[|p| + j..|p| + e] == b[j..e];
        TokensFromShift(p, b, e);
        assert TokensFrom(s, |p| + j) == [b[j..e]] + TokensFrom(s, |p| + e);
      }
    }
  }

  /** The tokens of tokens written one per line are those tokens. */
  lemma {:induction false} TokensOfWritten(ts: seq<string>)
    requires forall k :: 0 <= k < |ts| ==> IsToken(ts[k])
    ensures TokensFrom(Terminated(ts), 0) == ts
    decreases |ts|
  {
    if ts != [] {
      var t, tail := ts[0], Terminated(ts[1..]);
      var s := Terminated(ts);
      assert s == (t + "\n") + tail;
      assert forall m :: 0 <= m < |t| ==> s[m] == t[m] && t[m] in t;
      TokenEndIs(s, 0, |t|);
      assert s[0..|t|] == t;
      TokensFromShift(t + "\n", tail, 0);
      TokensOfWritten(ts[1..]);
    }
  }

  /** Reading as many tokens as were written one per line gives them back in order. */
  lemma WrittenTokensReadBack(ts: seq<string>)
    requires forall k :: 0 <= k < |ts| ==> IsToken(ts[k])
    ensures NextTokens(Terminated(ts), 0, |ts|).0 == ts
  {
    TokensOfWritten(ts);
    NextTokensWithinTokens(Terminated(ts), 0, |ts|);
  }

  // ---------------------------------------------------------------------------
  // The round trips through the handler

  /** Writes each integer with `writeln`; the output is the renderings, one per line. */
  method WritelnAll(xs: seq<int>) returns (w: Io)
    ensures fresh(w) && w.sink == Terminated(Renders(xs)) && w.pending == []
  {
    w := new Io([]);
    var i := 0;
    while i < |xs|
      invariant i <= |xs|
      invariant w.sink == WrittenPrefix(xs, i) && w.pending == []
    {
      w.Writeln(xs[i], IntToString);
      i := i + 1;
    }
    WrittenPrefixIsTerminated(xs, i);
    assert xs[..i] == xs;
  }

  /** The text the first i `writeln` calls leave: each rendering followed by a line feed. */
  function WrittenPrefix(xs: seq<int>, i: nat): string
    requires i <= |xs|
  {
    if i == 0 then [] else WrittenPrefix(xs, i - 1) + IntToString(xs[i - 1]) + "\n"
  }

  lemma {:induction false} WrittenPrefixIsTerminated(xs: seq<int>, i: nat)
    requires i <= |xs|
    ensures WrittenPrefix(xs, i) == Terminated(Renders(xs[..i]))
  {
    if i > 0 {
      WrittenPrefixIsTerminated(xs, i - 1);
      WrittenStep(xs, i - 1);
    }
  }

  /** One more `writeln` extends the written text by one rendering and a line feed. */
  lemma WrittenStep(xs: seq<int>, i: nat)
    requires i < |xs|
    ensures Terminated(Renders(xs[..i + 1])) == Terminated(Renders(xs[..i])) + IntToString(xs[i]) + "\n"
  {
    RendersSnoc(xs, i);
    TerminatedSnoc(Renders(xs[..i]), IntToString(xs[i]));
  }

  /** Integers written with `writeln` are read back by `vec` over that output. */
  method WritelnThenVec(xs: seq<int>) returns (r: Result<seq<int>, IoError>)
    requires AllInI64(xs)
    ensures r == Success(xs)
  {
    var w := WritelnAll(xs);
    var reader := new Io(w.sink);
    forall k | 0 <= k < |xs| ensures IsToken(Renders(xs)[k]) {
      RenderIsToken(xs[k]);
    }
    WrittenTokensReadBack(Renders(xs));
    ParseRenders(xs);
    r := reader.Vec(|xs|, ParseSigned);
    assert r.value == xs;
  }

  /** Integers written with `writeln` are read back by `nums` over that output. */
  method WritelnThenNums(xs: seq<int>) returns (r: Result<seq<int>, IoError>)
    requires AllInI64(xs)
    ensures r == Success(xs)
  {
    var w := WritelnAll(xs);
    var reader := new Io(w.sink);
    NumberMatchesOfWritten(xs);
    ParseRenders(xs);
    r := reader.Nums(ParseSigned);
  }

  /** A point written with `writeln` gives its coordinates back to `nums`. */
  method WritelnPointThenNums(p: Point2D) returns (r: Result<seq<int>, IoError>)
    requires InI64(p.x) && InI64(p.y)
    ensures r == Success([p.x, p.y])
  {
    var w := new Io([]);
    w.Writeln(p, Display);
    assert w.sink == Display(p) + "\n";
    var reader := new Io(w.sink);
    assert reader.Rest() == Display(p) + "\n";
    NumberMatchesOfDisplay(p);
    ParseSignedOfDisplay(p.x);
    ParseSignedOfDisplay(p.y);
    r := reader.Nums(ParseSigned);
    assert r.value == [p.x, p.y];
  }
}
