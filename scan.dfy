/**
 * The pure side of the tokenizing reader in src/io.rs: where a read starts
 * and stops in the input, the token list a run of reads walks through, the
 * line split of `lines`/`line_io` and the `-?\d+` scan of `nums`. The input is
 * a sequence of bytes, one `char` per byte; a cursor is an index into it.
 */
module Scan {
  import opened Wrappers
  import opened Decimal

  /** The fixed delimiter set: space, line feed, carriage return, tab, comma. */
  predicate IsDelimiter(c: char) { c == ' ' || c == '\n' || c == '\r' || c == '\t' || c == ',' }

  /** What `read_line` stops at. */
  predicate IsLineBreak(c: char) { c == '\n' || c == '\r' }

  /** What `str::lines` splits at. */
  predicate IsNewline(c: char) { c == '\n' }

  /** A token: a non-empty run of bytes none of which is a delimiter. */
  predicate IsToken(t: string) { t != [] && forall c :: c in t ==> !IsDelimiter(c) }

  // ---------------------------------------------------------------------------
  // Scanning forward from a cursor

  /** The first index at or after `i` whose byte is not a delimiter, or |s|. */
  function SkipDelimiters(s: string, i: nat): (k: nat)
    requires i <= |s|
    ensures i <= k <= |s|
    ensures k < |s| ==> !IsDelimiter(s[k])
    decreases |s| - i
  {
    if i < |s| && IsDelimiter(s[i]) then SkipDelimiters(s, i + 1) else i
  }

  /** The bytes skipped are all delimiters. */
  lemma {:induction false} SkipDelimitersSkips(s: string, i: nat)
    requires i <= |s|
    ensures forall m :: i <= m < SkipDelimiters(s, i) ==> IsDelimiter(s[m])
    decreases |s| - i
  {
    if i < |s| && SkipDelimiters(s, i) != i {
      SkipDelimitersSkips(s, i + 1);
    }
  }

  /** The first index at or after `i` whose byte is a delimiter, or |s|. */
  function TokenEnd(s: string, i: nat): (k: nat)
    requires i <= |s|
    ensures i <= k <= |s|
    ensures k < |s| ==> IsDelimiter(s[k])
    decreases |s| - i
  {
    if i < |s| && !IsDelimiter(s[i]) then TokenEnd(s, i + 1) else i
  }

  /** The bytes before the end are not delimiters. */
  lemma {:induction false} TokenEndSpans(s: string, i: nat)
    requires i <= |s|
    ensures forall m :: i <= m < TokenEnd(s, i) ==> !IsDelimiter(s[m])
    decreases |s| - i
  {
    if i < |s| && TokenEnd(s, i) != i {
      TokenEndSpans(s, i + 1);
    }
  }

  /** The first index at or after `i` whose byte is a line feed or carriage return, or |s|. */
  function LineEnd(s: string, i: nat): (k: nat)
    requires i <= |s|
    ensures i <= k <= |s|
    ensures k < |s| ==> IsLineBreak(s[k])
    decreases |s| - i
  {
    if i < |s| && !IsLineBreak(s[i]) then LineEnd(s, i + 1) else i
  }

  /** The bytes before the end are no line breaks. */
  lemma {:induction false} LineEndSpans(s: string, i: nat)
    requires i <= |s|
    ensures forall m :: i <= m < LineEnd(s, i) ==> !IsLineBreak(s[m])
    decreases |s| - i
  {
    if i < |s| && LineEnd(s, i) != i {
      LineEndSpans(s, i + 1);
    }
  }

  /** The first index at or after `i` whose byte is a line feed, or |s|. */
  function NewlineFrom(s: string, i: nat): (k: nat)
    requires i <= |s|
    ensures i <= k <= |s|
    ensures k < |s| ==> IsNewline(s[k])
    decreases |s| - i
  {
    if i < |s| && !IsNewline(s[i]) then NewlineFrom(s, i + 1) else i
  }

  /** The bytes before the end are no line feeds. */
  lemma {:induction false} NewlineFromSpans(s: string, i: nat)
    requires i <= |s|
    ensures forall m :: i <= m < NewlineFrom(s, i) ==> !IsNewline(s[m])
    decreases |s| - i
  {
    if i < |s| && NewlineFrom(s, i) != i {
      NewlineFromSpans(s, i + 1);
    }
  }

  /** The first index at or after `i` whose byte is not a decimal digit, or |s|. */
  function DigitsEnd(s: string, i: nat): (k: nat)
    requires i <= |s|
    ensures i <= k <= |s|
    ensures k < |s| ==> !IsDigit(s[k])
    decreases |s| - i
  {
    if i < |s| && IsDigit(s[i]) then DigitsEnd(s, i + 1) else i
  }

  /** The bytes before the end are digits. */
  lemma {:induction false} DigitsEndSpans(s: string, i: nat)
    requires i <= |s|
    ensures forall m :: i <= m < DigitsEnd(s, i) ==> IsDigit(s[m])
    decreases |s| - i
  {
    if i < |s| && DigitsEnd(s, i) != i {
      DigitsEndSpans(s, i + 1);
    }
  }

  /** A token run ends at the first delimiter: any index with that property is TokenEnd. */
  lemma {:induction false} TokenEndIs(s: string, i: nat, k: nat)
    requires i <= k <= |s|
    requires forall m :: i <= m < k ==> !IsDelimiter(s[m])
    requires k < |s| ==> IsDelimiter(s[k])
    ensures TokenEnd(s, i) == k
    decreases k - i
  {
    if i < k {
      TokenEndIs(s, i + 1, k);
    }
  }

  /** A delimiter run ends at the first non-delimiter: any index with that property is SkipDelimiters. */
  lemma {:induction false} SkipDelimitersIs(s: string, i: nat, k: nat)
    requires i <= k <= |s|
    requires forall m :: i <= m < k ==> IsDelimiter(s[m])
    requires k < |s| ==> !IsDelimiter(s[k])
    ensures SkipDelimiters(s, i) == k
    decreases k - i
  {
    if i < k {
      SkipDelimitersIs(s, i + 1, k);
    }
  }

  /** A line ends at the first line break: any index with that property is LineEnd. */
  lemma {:induction false} LineEndIs(s: string, i: nat, k: nat)
    requires i <= k <= |s|
    requires forall m :: i <= m < k ==> !IsLineBreak(s[m])
    requires k < |s| ==> IsLineBreak(s[k])
    ensures LineEnd(s, i) == k
    decreases k - i
  {
    if i < k {
      LineEndIs(s, i + 1, k);
    }
  }

  /** The first line feed: any index with that property is NewlineFrom. */
  lemma {:induction false} NewlineFromIs(s: string, i: nat, k: nat)
    requires i <= k <= |s|
    requires forall m :: i <= m < k ==> !IsNewline(s[m])
    requires k < |s| ==> IsNewline(s[k])
    ensures NewlineFrom(s, i) == k
    decreases k - i
  {
    if i < k {
      NewlineFromIs(s, i + 1, k);
    }
  }

  /** A digit run ends at the first non-digit: any index with that property is DigitsEnd. */
  lemma {:induction false} DigitsEndIs(s: string, i: nat, k: nat)
    requires i <= k <= |s|
    requires forall m :: i <= m < k ==> IsDigit(s[m])
    requires k < |s| ==> !IsDigit(s[k])
    ensures DigitsEnd(s, i) == k
    decreases k - i
  {
    if i < k {
      DigitsEndIs(s, i + 1, k);
    }
  }

  // ---------------------------------------------------------------------------
  // read: one token

  /**
   * One `read`: skip the delimiter run at `i`, take the longest delimiter-free
   * run after it as the token, and also consume the one delimiter that ended
   * the run (the byte iterator pulls it and drops it). Returns the token and
   * the new cursor. At the end of the input the token is empty.
   */
  function NextToken(s: string, i: nat): (r: (string, nat))
    requires i <= |s|
    ensures i + |r.0| <= r.1 <= |s|
  {
    var j := SkipDelimiters(s, i);
    var e := TokenEnd(s, j);
    (s[j..e], if e < |s| then e + 1 else e)
  }

  /**
   * What one `read` consumes: a run of delimiters, then the token, which is
   * delimiter-free and as long as possible, then one delimiter, or nothing
   * at the end of the input. The token is empty exactly when only delimiters
   * were left, and then the cursor moves to the end.
   */
  lemma NextTokenConsumes(s: string, i: nat)
    requires i <= |s|
    ensures var t := NextToken(s, i).0; var n := NextToken(s, i).1;
      var j := SkipDelimiters(s, i); var e := j + |t|;
      && e <= |s| && t == s[j..e]
      && (forall m :: i <= m < j ==> IsDelimiter(s[m]))
      && (forall c :: c in t ==> !IsDelimiter(c))
      && (t == [] <==> forall m :: i <= m < |s| ==> IsDelimiter(s[m]))
      && (t == [] ==> n == |s|)
      && (if e < |s| then IsDelimiter(s[e]) && n == e + 1 else n == |s|)
  {
    SkipDelimitersSkips(s, i);
    TokenEndSpans(s, SkipDelimiters(s, i));
  }

  /** `n` successive reads from cursor `i`: the tokens in call order and the final cursor. */
  function NextTokens(s: string, i: nat, n: nat): (r: (seq<string>, nat))
    requires i <= |s|
    ensures |r.0| == n && i <= r.1 <= |s|
    decreases n
  {
    if n == 0 then ([], i)
    else
      var before := NextTokens(s, i, n - 1);
      var last := NextToken(s, before.1);
      (before.0 + [last.0], last.1)
  }

  /** The first `k` of `n` successive reads are `k` successive reads. */
  lemma {:induction false} NextTokensPrefix(s: string, i: nat, n: nat, k: nat)
    requires i <= |s| && k <= n
    ensures NextTokens(s, i, n).0[..k] == NextTokens(s, i, k).0
    decreases n
  {
    if k < n {
      NextTokensPrefix(s, i, n - 1, k);
      assert NextTokens(s, i, n).0[..n - 1] == NextTokens(s, i, n - 1).0;
    }
  }

  /**
   * Reference definition of the tokens of s[i..]: its maximal delimiter-free
   * runs, left to right. Each token takes at least one byte, so there are
   * no more tokens than bytes left.
   */
  function TokensFrom(s: string, i: nat): (ts: seq<string>)
    requires i <= |s|
    ensures |ts| <= |s| - i
    decreases |s| - i
  {
    if i == |s| then []
    else if IsDelimiter(s[i]) then TokensFrom(s, i + 1)
    else
      var e := TokenEnd(s, i);
      [s[i..e]] + TokensFrom(s, e)
  }

  /** Every entry of the token list is a token. */
  lemma {:induction false} TokensAreTokens(s: string, i: nat)
    requires i <= |s|
    ensures forall t :: t in TokensFrom(s, i) ==> IsToken(t)
    decreases |s| - i
  {
    if i < |s| {
      if IsDelimiter(s[i]) {
        TokensAreTokens(s, i + 1);
      } else {
        var e := TokenEnd(s, i);
        TokensAreTokens(s, e);
        TokenEndSpans(s, i);
        assert forall c :: c in s[i..e] ==> !IsDelimiter(c);
      }
    }
  }

  /**
   * A read delivers the first remaining token and leaves exactly the other
   * tokens behind; when no token is left it delivers the empty token and
   * moves the cursor to the end.
   */
  lemma {:induction false} NextTokenTakesFirstToken(s: string, i: nat)
    requires i <= |s|
    ensures var t := NextToken(s, i).0; var n := NextToken(s, i).1; var all := TokensFrom(s, i);
      if all == [] then t == [] && n == |s|
      else t == all[0] && TokensFrom(s, n) == all[1..]
    decreases |s| - i
  {
    if i < |s| {
      if IsDelimiter(s[i]) {
        assert SkipDelimiters(s, i) == SkipDelimiters(s, i + 1);
        NextTokenTakesFirstToken(s, i + 1);
      } else {
        var e := TokenEnd(s, i);
        if e < |s| {
          assert TokensFrom(s, e) == TokensFrom(s, e + 1);
        }
      }
    }
  }

  /** Reads within the token count deliver the tokens in order, each once. */
  lemma {:induction false} NextTokensWithinTokens(s: string, i: nat, n: nat)
    requires i <= |s|
    requires n <= |TokensFrom(s, i)|
    ensures NextTokens(s, i, n).0 == TokensFrom(s, i)[..n]
    ensures TokensFrom(s, NextTokens(s, i, n).1) == TokensFrom(s, i)[n..]
    decreases n
  {
    if n > 0 {
      var all := TokensFrom(s, i);
      NextTokensWithinTokens(s, i, n - 1);
      var p := NextTokens(s, i, n - 1).1;
      NextTokenTakesFirstToken(s, p);
      assert TokensFrom(s, p) == all[n - 1..];
      assert all[n - 1..][1..] == all[n..];
      assert all[..n] == all[..n - 1] + [all[n - 1]];
    }
  }

  /** `k` empty tokens. */
  function EmptyTokens(k: nat): (ts: seq<string>)
    ensures |ts| == k
  {
    if k == 0 then [] else EmptyTokens(k - 1) + [[]]
  }

  lemma AppendAssoc<T>(a: seq<T>, b: seq<T>, c: seq<T>)
    ensures (a + b) + c == a + (b + c)
  {
  }

  /**
   * Reads past the last token deliver empty tokens and leave the cursor at the
   * end of the input.
   */
  lemma NextTokensPastTokens(s: string, i: nat, n: nat)
    requires i <= |s|
    requires n > |TokensFrom(s, i)|
    ensures NextTokens(s, i, n).0 == TokensFrom(s, i) + EmptyTokens(n - |TokensFrom(s, i)|)
    ensures NextTokens(s, i, n).1 == |s|
  {
    var all := TokensFrom(s, i);
    ReadsPastTokens(s, i, all, n - |all|);
    assert |all| + (n - |all|) == n;
  }

  /** `k` reads beyond the token count `all` deliver `k` empty tokens, leaving no token behind. */
  lemma {:induction false} ReadsPastTokens(s: string, i: nat, all: seq<string>, k: nat)
    requires i <= |s| && all == TokensFrom(s, i)
    ensures NextTokens(s, i, |all| + k).0 == all + EmptyTokens(k)
    ensures TokensFrom(s, NextTokens(s, i, |all| + k).1) == []
    ensures k > 0 ==> NextTokens(s, i, |all| + k).1 == |s|
    decreases k
  {
    if k == 0 {
      NextTokensWithinTokens(s, i, |all|);
      assert all[..|all|] == all + EmptyTokens(0);
    } else {
      ReadsPastTokens(s, i, all, k - 1);
      var (ts, p) := NextTokens(s, i, |all| + k - 1);
      NextTokenTakesFirstToken(s, p);
      assert EmptyTokens(k) == EmptyTokens(k - 1) + [[]];
      AppendAssoc(all, EmptyTokens(k - 1), [[]]);
      assert NextTokens(s, i, |all| + k) == (ts + [[]], |s|);
    }
  }
  // ---------------------------------------------------------------------------
  // read_char: one byte

  /**
   * One `read_char`: skip the delimiter run at `i`, then take exactly one
   * byte; `None` when the input is exhausted.
   */
  function NextChar(s: string, i: nat): (r: (Option<char>, nat))
    requires i <= |s|
    ensures i <= r.1 <= |s|
  {
    var j := SkipDelimiters(s, i);
    if j == |s| then (None, j) else (Some(s[j]), j + 1)
  }

  /**
   * What one `read_char` consumes: a run of delimiters and then the one
   * non-delimiter byte it returns; nothing is returned, and the whole input
   * is consumed, exactly when only delimiters were left.
   */
  lemma NextCharConsumes(s: string, i: nat)
    requires i <= |s|
    ensures var c := NextChar(s, i).0; var n := NextChar(s, i).1;
      && (c.None? <==> forall m :: i <= m < |s| ==> IsDelimiter(s[m]))
      && (c.None? ==> n == |s|)
      && (c.Some? ==> && i < n && s[n - 1] == c.value && !IsDelimiter(c.value)
                      && forall m :: i <= m < n - 1 ==> IsDelimiter(s[m]))
  {
    SkipDelimitersSkips(s, i);
  }

  /** `read_char` returns the first byte of the token `read` would have returned. */
  lemma NextCharStartsNextToken(s: string, i: nat)
    requires i <= |s|
    ensures var t := NextToken(s, i).0;
      NextChar(s, i).0 == if t == [] then None else Some(t[0])
  {
  }

  // ---------------------------------------------------------------------------
  // read_line and lines

  /**
   * One `read_line`: the bytes from `i` up to the first line feed or carriage
   * return (no delimiter skipping), with that terminator consumed.
   */
  function NextLine(s: string, i: nat): (r: (string, nat))
    requires i <= |s|
    ensures i + |r.0| <= r.1 <= |s|
  {
    var e := LineEnd(s, i);
    (s[i..e], if e < |s| then e + 1 else e)
  }

  /**
   * What one `read_line` consumes: the line, which holds no line break, and
   * then the one line feed or carriage return that ended it, or nothing at
   * the end of the input.
   */
  lemma NextLineConsumes(s: string, i: nat)
    requires i <= |s|
    ensures var l := NextLine(s, i).0; var n := NextLine(s, i).1; var e := i + |l|;
      && e <= |s| && l == s[i..e]
      && (forall c :: c in l ==> !IsLineBreak(c))
      && (if e < |s| then IsLineBreak(s[e]) && n == e + 1 else n == |s|)
  {
    LineEndSpans(s, i);
  }

  /** `n` successive `read_line` calls from cursor `i`. */
  function NextLines(s: string, i: nat, n: nat): (r: (seq<string>, nat))
    requires i <= |s|
    ensures |r.0| == n && i <= r.1 <= |s|
    decreases n
  {
    if n == 0 then ([], i)
    else
      var first := NextLine(s, i);
      var after := NextLines(s, first.1, n - 1);
      ([first.0] + after.0, after.1)
  }

  /** Drops one carriage return that sat just before the line feed. */
  function StripCr(l: string): string
  {
    if |l| > 0 && l[|l| - 1] == '\r' then l[..|l| - 1] else l
  }

  /**
   * `str::lines` of s[i..]: split at each line feed, drop a carriage return
   * just before it, and produce no empty line after a final line feed.
   */
  function LinesFrom(s: string, i: nat): (ls: seq<string>)
    requires i <= |s|
    ensures ls == [] <==> i == |s|
    ensures forall l :: l in ls ==> '\n' !in l
    decreases |s| - i
  {
    if i == |s| then []
    else
      var e := NewlineFrom(s, i);
      NewlineFromSpans(s, i);
      assert forall c :: c in s[i..e] ==> !IsNewline(c);
      if e == |s| then [s[i..]] else [StripCr(s[i..e])] + LinesFrom(s, e + 1)
  }

  /** `str::lines` of the whole text: no line at all for the empty text, and no line holds a line feed. */
  function Lines(s: string): (ls: seq<string>)
    ensures ls == [] <==> s == []
    ensures forall l :: l in ls ==> '\n' !in l
  {
    LinesFrom(s, 0)
  }

  /** s[i..] holds no carriage return. */
  predicate NoCarriageReturn(s: string, i: nat)
    requires i <= |s|
    decreases |s| - i
  {
    i == |s| || (s[i] != '\r' && NoCarriageReturn(s, i + 1))
  }

  lemma {:induction false} NoCarriageReturnFrom(s: string, i: nat, m: nat)
    requires i <= m <= |s| && NoCarriageReturn(s, i)
    ensures NoCarriageReturn(s, m) && (m < |s| ==> s[m] != '\r')
    decreases m - i
  {
    if i < m {
      NoCarriageReturnFrom(s, i + 1, m);
    }
  }

  /** Each line followed by a line feed, concatenated. */
  function Terminated(ls: seq<string>): string
  {
    if ls == [] then [] else ls[0] + "\n" + Terminated(ls[1..])
  }

  /** The line feed `lines` implies after s[i..] when that text does not end with one. */
  function FinalNewline(s: string, i: nat): string
    requires i <= |s|
  {
    if i < |s| && s[|s| - 1] != '\n' then "\n" else ""
  }

  /**
   * Without carriage returns, the lines are exactly the text between line
   * feeds: terminating each one gives back the text, plus a line feed when the
   * text did not already end with one.
   */
  lemma {:induction false} LinesRebuildText(s: string, i: nat)
    requires i <= |s| && NoCarriageReturn(s, i)
    ensures Terminated(LinesFrom(s, i)) == s[i..] + FinalNewline(s, i)
    decreases |s| - i
  {
    if i < |s| {
      var e := NewlineFrom(s, i);
      if e == |s| {
        LastLineRebuildsText(s, i);
      } else {
        if e > i {
          NoCarriageReturnFrom(s, i, e - 1);
        }
        NoCarriageReturnFrom(s, i, e + 1);
        LinesFromInner(s, i, e);
        LinesRebuildText(s, e + 1);
        InnerLineRebuildsText(s, i, e);
      }
    }
  }

  /** A line ended by a line feed with no carriage return before it is taken as it is. */
  lemma LinesFromInner(s: string, i: nat, e: nat)
    requires i <= e < |s| && e == NewlineFrom(s, i) && (e == i || s[e - 1] != '\r')
    ensures LinesFrom(s, i) == [s[i..e]] + LinesFrom(s, e + 1)
  {
    assert StripCr(s[i..e]) == s[i..e];
  }

  lemma LastLineRebuildsText(s: string, i: nat)
    requires i < |s| && NewlineFrom(s, i) == |s|
    ensures Terminated(LinesFrom(s, i)) == s[i..] + FinalNewline(s, i)
  {
    assert LinesFrom(s, i) == [s[i..]];
    NewlineFromSpans(s, i);
    assert !IsNewline(s[|s| - 1]);
    assert Terminated([s[i..]]) == s[i..] + "\n" + Terminated([]);
  }

  lemma InnerLineRebuildsText(s: string, i: nat, e: nat)
    requires i <= e < |s| && s[e] == '\n'
    requires LinesFrom(s, i) == [s[i..e]] + LinesFrom(s, e + 1)
    requires Terminated(LinesFrom(s, e + 1)) == s[e + 1..] + FinalNewline(s, e + 1)
    ensures Terminated(LinesFrom(s, i)) == s[i..] + FinalNewline(s, i)
  {
    assert FinalNewline(s, e + 1) == FinalNewline(s, i);
    SplitAtNewline(s, i, e);
    TerminatedCons(s[i..e], LinesFrom(s, e + 1), s[e + 1..], FinalNewline(s, i));
  }

  lemma SplitAtNewline(s: string, i: nat, e: nat)
    requires i <= e < |s| && s[e] == '\n'
    ensures s[i..] == s[i..e] + "\n" + s[e + 1..]
  {
  }

  lemma TerminatedCons(l: string, rest: seq<string>, tail: string, f: string)
    requires Terminated(rest) == tail + f
    ensures Terminated([l] + rest) == (l + "\n" + tail) + f
  {
    assert ([l] + rest)[1..] == rest;
  }

  /**
   * s[i..] uses Windows line ends: every line feed comes right after a
   * carriage return, and every carriage return right before a line feed.
   */
  predicate CrlfOnly(s: string, i: nat)
    requires i <= |s|
  {
    && (forall m :: i <= m < |s| && s[m] == '\n' ==> i < m && s[m - 1] == '\r')
    && (forall m :: i <= m < |s| && s[m] == '\r' ==> m + 1 < |s| && s[m + 1] == '\n')
  }

  /** Each line followed by a carriage return and a line feed, concatenated. */
  function TerminatedCrlf(ls: seq<string>): string
  {
    if ls == [] then [] else ls[0] + "\r\n" + TerminatedCrlf(ls[1..])
  }

  /** The line end `lines` implies after s[i..] when that text does not end with one. */
  function FinalCrlf(s: string, i: nat): string
    requires i <= |s|
  {
    if i < |s| && s[|s| - 1] != '\n' then "\r\n" else ""
  }

  /**
   * With Windows line ends, the lines are exactly the text between line ends,
   * the carriage returns dropped: ending each one with "\r\n" gives back the
   * text, plus a line end when the text did not already end with one.
   */
  lemma {:induction false} LinesRebuildCrlfText(s: string, i: nat)
    requires i <= |s| && CrlfOnly(s, i)
    ensures TerminatedCrlf(LinesFrom(s, i)) == s[i..] + FinalCrlf(s, i)
    decreases |s| - i
  {
    if i < |s| {
      var e := NewlineFrom(s, i);
      NewlineFromSpans(s, i);
      if e == |s| {
        LastCrlfLineRebuildsText(s, i);
      } else {
        CrlfOnlyAfter(s, i, e);
        LinesRebuildCrlfText(s, e + 1);
        InnerCrlfLineRebuildsText(s, i, e);
      }
    }
  }

  /** The line feed at e ends a "\r\n" line end, and the text after it again uses only "\r\n". */
  lemma CrlfOnlyAfter(s: string, i: nat, e: nat)
    requires i <= e < |s| && CrlfOnly(s, i) && s[e] == '\n'
    ensures i < e && s[e - 1] == '\r' && CrlfOnly(s, e + 1)
  {
  }

  lemma LastCrlfLineRebuildsText(s: string, i: nat)
    requires i < |s| && CrlfOnly(s, i) && NewlineFrom(s, i) == |s|
    requires forall m :: i <= m < |s| ==> !IsNewline(s[m])
    ensures TerminatedCrlf(LinesFrom(s, i)) == s[i..] + FinalCrlf(s, i)
  {
    assert LinesFrom(s, i) == [s[i..]];
    assert s[|s| - 1] != '\n';
    assert TerminatedCrlf([s[i..]]) == s[i..] + "\r\n" + TerminatedCrlf([]);
  }

  lemma InnerCrlfLineRebuildsText(s: string, i: nat, e: nat)
    requires i < e < |s| && e == NewlineFrom(s, i) && s[e - 1] == '\r'
    requires TerminatedCrlf(LinesFrom(s, e + 1)) == s[e + 1..] + FinalCrlf(s, e + 1)
    ensures TerminatedCrlf(LinesFrom(s, i)) == s[i..] + FinalCrlf(s, i)
  {
    CrlfLineFrom(s, i, e);
    if e + 1 == |s| {
      assert s[|s| - 1] == '\n';
    }
    assert FinalCrlf(s, e + 1) == FinalCrlf(s, i);
    SplitAtCrlf(s, i, e);
    TerminatedCrlfCons(s[i..e - 1], LinesFrom(s, e + 1), s[e + 1..], FinalCrlf(s, i));
  }

  /** A line ended by "\r\n" is taken without its carriage return. */
  lemma CrlfLineFrom(s: string, i: nat, e: nat)
    requires i < e < |s| && e == NewlineFrom(s, i) && s[e - 1] == '\r'
    ensures LinesFrom(s, i) == [s[i..e - 1]] + LinesFrom(s, e + 1)
  {
    var l := s[i..e];
    assert |l| > 0 && l[|l| - 1] == '\r';
    assert l[..|l| - 1] == s[i..e - 1];
  }

  lemma SplitAtCrlf(s: string, i: nat, e: nat)
    requires i < e < |s| && s[e - 1] == '\r' && s[e] == '\n'
    ensures s[i..] == s[i..e - 1] + "\r\n" + s[e + 1..]
  {
  }

  lemma TerminatedCrlfCons(l: string, rest: seq<string>, tail: string, f: string)
    requires TerminatedCrlf(rest) == tail + f
    ensures TerminatedCrlf([l] + rest) == (l + "\r\n" + tail) + f
  {
    assert ([l] + rest)[1..] == rest;
  }

  /** Without carriage returns, the line feed `lines` splits at is where `read_line` stops. */
  lemma {:induction false} LineEndIsNewline(s: string, i: nat)
    requires i <= |s| && NoCarriageReturn(s, i)
    ensures LineEnd(s, i) == NewlineFrom(s, i)
    decreases |s| - i
  {
    if i < |s| && s[i] != '\n' {
      LineEndIsNewline(s, i + 1);
    }
  }

  /**
   * Without carriage returns, `read_line` called once per line yields exactly
   * the lines that `lines` produces, and ends at the end of the input.
   */
  lemma {:induction false} NextLinesAreLines(s: string, i: nat)
    requires i <= |s| && NoCarriageReturn(s, i)
    ensures NextLines(s, i, |LinesFrom(s, i)|).0 == LinesFrom(s, i)
    ensures NextLines(s, i, |LinesFrom(s, i)|).1 == |s|
    decreases |s| - i
  {
    if i < |s| {
      var e := NewlineFrom(s, i);
      LineEndIsNewline(s, i);
      if e < |s| {
        if e > i {
          NoCarriageReturnFrom(s, i, e - 1);
        }
        NoCarriageReturnFrom(s, i, e + 1);
        LinesFromInner(s, i, e);
        NextLinesAreLines(s, e + 1);
        NextLinesStep(s, i, e);
      } else {
        NextLinesLast(s, i);
      }
    }
  }

  /** One `read_line` for the line ending at e, then one per later line. */
  lemma NextLinesStep(s: string, i: nat, e: nat)
    requires i <= e < |s| && LineEnd(s, i) == e && s[e] == '\n'
    requires LinesFrom(s, i) == [s[i..e]] + LinesFrom(s, e + 1)
    requires NextLines(s, e + 1, |LinesFrom(s, e + 1)|).0 == LinesFrom(s, e + 1)
    requires NextLines(s, e + 1, |LinesFrom(s, e + 1)|).1 == |s|
    ensures NextLines(s, i, |LinesFrom(s, i)|).0 == LinesFrom(s, i)
    ensures NextLines(s, i, |LinesFrom(s, i)|).1 == |s|
  {
    var rest := LinesFrom(s, e + 1);
    assert |LinesFrom(s, i)| == |rest| + 1;
    assert NextLine(s, i) == (s[i..e], e + 1);
    NextLinesCons(s, i, |rest|);
  }

  /** One `read_line` takes the last line, which has no line feed after it. */
  lemma NextLinesLast(s: string, i: nat)
    requires i < |s| && NewlineFrom(s, i) == |s| && LineEnd(s, i) == |s|
    ensures NextLines(s, i, |LinesFrom(s, i)|) == (LinesFrom(s, i), |s|)
  {
    assert LinesFrom(s, i) == [s[i..]];
    assert s[i..LineEnd(s, i)] == s[i..];
    assert NextLine(s, i) == (s[i..], |s|);
    NextLinesCons(s, i, 0);
    assert NextLines(s, |s|, 0) == ([], |s|);
    assert [s[i..]] + [] == [s[i..]];
    assert NextLines(s, i, 1).0 == [s[i..]] && NextLines(s, i, 1).1 == |s|;
  }

  lemma NextLinesCons(s: string, i: nat, n: nat)
    requires i <= |s|
    ensures NextLines(s, i, n + 1).0 == [NextLine(s, i).0] + NextLines(s, NextLine(s, i).1, n).0
    ensures NextLines(s, i, n + 1).1 == NextLines(s, NextLine(s, i).1, n).1
  {
  }

  // ---------------------------------------------------------------------------
  // nums: the -?\d+ scan

  /** A match of `-?\d+`: an optional minus sign, then one or more digits. */
  predicate IsNumberLiteral(m: string)
  {
    || (m != [] && AllDigits(m))
    || (|m| > 1 && m[0] == '-' && AllDigits(m[1..]))
  }

  /**
   * Every leftmost, greedy, non-overlapping match of `-?\d+` in s, left to
   * right. A match starts at the first digit, or at a minus sign right
   * before a digit, and runs to the end of that digit run; the search goes
   * on after it.
   */
  function NumberMatches(s: string): (ms: seq<string>)
    ensures forall m :: m in ms ==> IsNumberLiteral(m)
    decreases |s|
  {
    if s == [] then []
    else if IsDigit(s[0]) then
      var e := DigitsEnd(s, 0);
      DigitsEndSpans(s, 0);
      assert AllDigits(s[..e]);
      [s[..e]] + NumberMatches(s[e..])
    else if s[0] == '-' && |s| > 1 && IsDigit(s[1]) then
      var e := DigitsEnd(s, 1);
      DigitsEndSpans(s, 1);
      assert s[..e][1..] == s[1..e];
      assert AllDigits(s[1..e]);
      [s[..e]] + NumberMatches(s[e..])
    else NumberMatches(s[1..])
  }

  /** The decimal digits of s, in order. */
  function Digits(s: string): (ds: string)
    decreases |s|
  {
    if s == [] then [] else (if IsDigit(s[0]) then [s[0]] else []) + Digits(s[1..])
  }

  /** The matches written one after another. */
  function Concat(ms: seq<string>): string
    decreases |ms|
  {
    if ms == [] then [] else ms[0] + Concat(ms[1..])
  }

  lemma {:induction false} DigitsAppend(a: string, b: string)
    ensures Digits(a + b) == Digits(a) + Digits(b)
    decreases |a|
  {
    if a == [] {
      assert a + b == b;
    } else {
      var h := if IsDigit(a[0]) then [a[0]] else [];
      assert (a + b)[0] == a[0];
      assert (a + b)[1..] == a[1..] + b;
      DigitsAppend(a[1..], b);
      assert Digits(a + b) == h + Digits(a[1..] + b);
      assert Digits(a) == h + Digits(a[1..]);
      AppendAssoc(h, Digits(a[1..]), Digits(b));
    }
  }

  /**
   * The scan skips no digit: the matches, written one after another, hold
   * exactly the digits of s, in the same order.
   */
  lemma {:induction false} NumberMatchesKeepDigits(s: string)
    ensures Digits(Concat(NumberMatches(s))) == Digits(s)
    decreases |s|
  {
    if s != [] {
      if IsDigit(s[0]) || (s[0] == '-' && |s| > 1 && IsDigit(s[1])) {
        var e := if IsDigit(s[0]) then DigitsEnd(s, 0) else DigitsEnd(s, 1);
        var tail := NumberMatches(s[e..]);
        NumberMatchesKeepDigits(s[e..]);
        assert NumberMatches(s) == [s[..e]] + tail;
        assert Concat([s[..e]] + tail) == s[..e] + Concat(tail) by {
          assert ([s[..e]] + tail)[1..] == tail;
        }
        DigitsAppend(s[..e], Concat(tail));
        DigitsAppend(s[..e], s[e..]);
        assert s[..e] + s[e..] == s;
      } else {
        NumberMatchesKeepDigits(s[1..]);
      }
    }
  }

  /**
   * Where the matches of s[off..] lie in s: the scan of `NumberMatches` with
   * positions, each match given as its start and end index.
   */
  function NumberSpans(s: string, off: nat): (spans: seq<(nat, nat)>)
    requires off <= |s|
    decreases |s| - off
  {
    if off == |s| then []
    else if IsDigit(s[off]) then
      var e := DigitsEnd(s, off);
      [(off, e)] + NumberSpans(s, e)
    else if s[off] == '-' && off + 1 < |s| && IsDigit(s[off + 1]) then
      var e := DigitsEnd(s, off + 1);
      [(off, e)] + NumberSpans(s, e)
    else NumberSpans(s, off + 1)
  }

  /** Scanning from off sees the same digit runs as scanning s[off..] from 0. */
  lemma DigitsEndShift(s: string, off: nat, j: nat)
    requires off + j <= |s|
    ensures DigitsEnd(s[off..], j) == DigitsEnd(s, off + j) - off
  {
    var k := DigitsEnd(s, off + j);
    DigitsEndSpans(s, off + j);
    DigitsEndIs(s[off..], j, k - off);
  }

  /** A match located in s: its text, and the digit run it ends with stops at a non-digit or the end. */
  predicate IsGreedyMatchAt(s: string, m: string, b: nat, e: nat)
  {
    && b < e <= |s|
    && m == s[b..e]
    && (e == |s| || !IsDigit(s[e]))
    && (0 < b && IsDigit(s[b]) ==> !IsDigit(s[b - 1]) && s[b - 1] != '-')
  }

  /**
   * `spans` locate the matches `ms` in s at or after off: the k-th match is
   * greedy at the k-th span, and the spans come in order without overlapping.
   */
  predicate GreedySpans(s: string, off: nat, ms: seq<string>, spans: seq<(nat, nat)>)
  {
    && |ms| == |spans|
    && (forall k :: 0 <= k < |spans| ==> off <= spans[k].0 && IsGreedyMatchAt(s, ms[k], spans[k].0, spans[k].1))
    && (forall k :: 0 <= k < |spans| - 1 ==> spans[k].1 <= spans[k + 1].0)
  }

  /**
   * Every match of s[off..] is a leftmost, greedy match of s: the k-th match
   * is the text between the k-th span's ends; its digit run stops only at a
   * non-digit or the end of s; a match that starts with a digit has neither
   * a digit nor a minus sign just before it; and the matches come in order
   * without overlapping.
   */
  lemma {:induction false} NumberMatchesAreGreedy(s: string, off: nat)
    requires off <= |s|
    requires 0 < off < |s| && IsDigit(s[off]) ==> !IsDigit(s[off - 1]) && s[off - 1] != '-'
    ensures GreedySpans(s, off, NumberMatches(s[off..]), NumberSpans(s, off))
    decreases |s| - off
  {
    if off < |s| {
      var t := s[off..];
      if IsDigit(s[off]) || (s[off] == '-' && off + 1 < |s| && IsDigit(s[off + 1])) {
        var j := if IsDigit(s[off]) then 0 else 1;
        var e := DigitsEnd(s, off + j);
        DigitsEndShift(s, off, j);
        assert t[..e - off] == s[off..e];
        assert t[e - off..] == s[e..];
        assert NumberMatches(t) == [s[off..e]] + NumberMatches(s[e..]);
        NumberMatchesAreGreedy(s, e);
        GreedyCons(s, s[off..e], off, e, NumberMatches(s[e..]), NumberSpans(s, e));
      } else {
        assert t[1..] == s[off + 1..];
        NumberMatchesAreGreedy(s, off + 1);
        GreedyFrom(s, off, NumberMatches(t), NumberSpans(s, off));
      }
    }
  }

  /** A match at off, followed by the matches located after it. */
  lemma GreedyCons(s: string, m: string, off: nat, e: nat, ms: seq<string>, spans: seq<(nat, nat)>)
    requires IsGreedyMatchAt(s, m, off, e) && GreedySpans(s, e, ms, spans)
    ensures GreedySpans(s, off, [m] + ms, [(off, e)] + spans)
  {
    var ms', spans' := [m] + ms, [(off, e)] + spans;
    forall k | 0 <= k < |spans'|
      ensures off <= spans'[k].0 && IsGreedyMatchAt(s, ms'[k], spans'[k].0, spans'[k].1)
    {
      if k > 0 {
        assert spans'[k] == spans[k - 1] && ms'[k] == ms[k - 1];
      }
    }
    forall k | 0 <= k < |spans'| - 1
      ensures spans'[k].1 <= spans'[k + 1].0
    {
      if k > 0 {
        assert spans'[k] == spans[k - 1] && spans'[k + 1] == spans[k];
      }
    }
  }

  /** Matches located at or after off + 1 are located at or after off. */
  lemma GreedyFrom(s: string, off: nat, ms: seq<string>, spans: seq<(nat, nat)>)
    requires GreedySpans(s, off + 1, ms, spans)
    ensures GreedySpans(s, off, ms, spans)
  {
  }

  /**
   * `collect` over `parse(..).unwrap()`: every entry parsed in order, or
   * `None` as soon as one entry does not parse.
   */
  function ParseEach<T>(ts: seq<string>, parse: string -> Option<T>): (r: Option<seq<T>>)
    ensures r.Some? <==> forall k :: 0 <= k < |ts| ==> parse(ts[k]).Some?
    ensures r.Some? ==> |r.value| == |ts| && forall k :: 0 <= k < |ts| ==> r.value[k] == parse(ts[k]).value
    decreases |ts|
  {
    if ts == [] then Some([])
    else
      var head := parse(ts[0]);
      var tail := ParseEach(ts[1..], parse);
      if head.Some? && tail.Some? then Some([head.value] + tail.value) else None
  }

  /** The index of the first entry that does not parse, or |ts| when all do. */
  function FirstUnparsed<T>(ts: seq<string>, parse: string -> Option<T>): (k: nat)
    ensures k <= |ts|
    ensures forall j :: 0 <= j < k ==> parse(ts[j]).Some?
    ensures k < |ts| ==> parse(ts[k]).None?
    decreases |ts|
  {
    if ts == [] || parse(ts[0]).None? then 0 else 1 + FirstUnparsed(ts[1..], parse)
  }

  /** FirstUnparsed is the one index before which every entry parses and at which one does not. */
  lemma {:induction false} FirstUnparsedIs<T>(ts: seq<string>, parse: string -> Option<T>, k: nat)
    requires k <= |ts|
    requires forall j :: 0 <= j < k ==> parse(ts[j]).Some?
    requires k < |ts| ==> parse(ts[k]).None?
    ensures FirstUnparsed(ts, parse) == k
    decreases k
  {
    if k > 0 {
      assert parse(ts[0]).Some?;
      FirstUnparsedIs(ts[1..], parse, k - 1);
    }
  }

  /** The k-th of `n` successive reads is the read made after the first `k`. */
  lemma NextTokensAt(s: string, i: nat, n: nat, k: nat)
    requires i <= |s| && k < n
    ensures NextTokens(s, i, n).0[k] == NextToken(s, NextTokens(s, i, k).1).0
  {
    NextTokensPrefix(s, i, n, k + 1);
    assert NextTokens(s, i, k + 1).0 == NextTokens(s, i, n).0[..k + 1];
  }
}
