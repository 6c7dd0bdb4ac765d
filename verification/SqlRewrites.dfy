/** What one rewrite of each unwrapping loop does to the text, and when it raises. */
module SqlRewrites {
  import opened Prelude
  import opened SqlMask
  import opened SqlSplit
  import opened SqlUnwrap

  /** The character codes that make a word: letters, digits and the underscore. */
  lemma WordCodes(c: char)
    ensures IsWordStart(c) <==> 97 <= c as int <= 122 || 65 <= c as int <= 90 || c as int == 95
    ensures IsWord(c) <==> IsWordStart(c) || 48 <= c as int <= 57
  {
  }

  // ---- the value argument ----

  lemma {:induction false} StripLeftEnd(text: string) returns (from: nat)
    ensures from <= |text| && StripLeft(text) == text[from..]
    ensures forall k :: 0 <= k < from ==> IsSpace(text[k])
    ensures from < |text| ==> !IsSpace(text[from])
  {
    if |text| > 0 && IsSpace(text[0]) {
      var rest := StripLeftEnd(text[1..]);
      from := rest + 1;
      assert text[1..][rest..] == text[from..];
      assert forall k :: 0 < k < from ==> text[k] == text[1..][k - 1];
    } else {
      from := 0;
    }
  }

  lemma {:induction false} StripRightEnd(text: string) returns (to: nat)
    ensures to <= |text| && StripRight(text) == text[..to]
    ensures forall k :: to <= k < |text| ==> IsSpace(text[k])
    ensures to > 0 ==> !IsSpace(text[to - 1])
  {
    if |text| > 0 && IsSpace(text[|text| - 1]) {
      to := StripRightEnd(text[..|text| - 1]);
      assert text[..|text| - 1][..to] == text[..to];
    } else {
      to := |text|;
    }
  }

  /** Stripping cuts white space off both ends, and no end is left with any. */
  lemma StripMeaning(text: string) returns (from: nat, to: nat)
    ensures from <= to <= |text| && Strip(text) == text[from..to]
    ensures forall k :: 0 <= k < |text| && !(from <= k < to) ==> IsSpace(text[k])
    ensures from < to ==> !IsSpace(text[from]) && !IsSpace(text[to - 1])
  {
    from := StripLeftEnd(text);
    var length := StripRightEnd(text[from..]);
    to := from + length;
    assert text[from..][..length] == text[from..to];
    forall k | to <= k < |text|
      ensures IsSpace(text[k])
    {
      assert text[k] == text[from..][k - from];
    }
    assert from < to ==> text[to - 1] == text[from..][length - 1];
  }

  /** The parenthesis before `from` is never closed. */
  ghost predicate NoPartner(mask: string, from: nat) {
    forall close: nat :: !Matches(mask, from, close)
  }

  // ---- unwrap_round ----

  /** The first visible call is replaced by its stripped first argument, and the loop goes on with the result. */
  lemma {:induction false} RoundRewrites(expression: string, at: nat, open: nat, close: nat)
    requires FirstRound(Mask(expression), at, open) && Matches(Mask(expression), open + 1, close)
    requires CallValue(expression, open, close) != ""
    ensures UnwrappedRound(expression) ==
            UnwrappedRound(expression[..at] + CallValue(expression, open, close) + expression[close + 1..])
  {
    FirstRoundFound(Mask(expression), at, open);
    RoundRewriteMatched(expression, at, open, close);
  }

  lemma {:induction false} RoundWithoutValue(expression: string, at: nat, open: nat, close: nat)
    requires FirstRound(Mask(expression), at, open) && Matches(Mask(expression), open + 1, close)
    requires CallValue(expression, open, close) == ""
    ensures UnwrappedRound(expression) == Err(NoValue)
  {
    FirstRoundFound(Mask(expression), at, open);
    RoundRewriteMatched(expression, at, open, close);
  }

  lemma {:induction false} RoundUnbalanced(expression: string, at: nat, open: nat)
    requires FirstRound(Mask(expression), at, open)
    requires NoPartner(Mask(expression), open + 1)
    ensures UnwrappedRound(expression) == Err(Unbalanced)
  {
    FirstRoundFound(Mask(expression), at, open);
    assert Partner(Mask(expression), open + 1).None?;
  }

  lemma {:induction false} FreeWithoutParenthesis(text: string)
    requires '(' !in Mask(text)
    ensures UnwrappedRound(text) == Ok(text)
  {
    assert forall open :: 0 <= open < |Mask(text)| ==> Mask(text)[open] in Mask(text);
    UnwrapRoundMeaning(text);
  }

  /** -round(-x) becomes --x, which shows nothing. */
  lemma SeamExampleUnwraps()
    ensures UnwrappedRound("-round(-x)") == Ok("--x")
  {
    var e := SEAM_EXAMPLE;
    MinusRoundMinus();
    SeamExampleIsClean();
    assert Lower(e[0..5])[0] == '-';
    SeamExampleValue();
    assert FirstRound(Mask(e), 1, 6);
    RoundRewrites(e, 1, 6, 9);
    assert e[..1] + "-x" + e[10..] == "--x";
    FreeWithoutParenthesis("--x");
  }

  lemma CommentExampleCall()
    ensures FirstRound(Mask(COMMENT_EXAMPLE), 0, 5) && Matches(Mask(COMMENT_EXAMPLE), 6, 15)
    ensures '(' !in Mask("x --c*y")
  {
    CommentTakesTheRest();
  }

  lemma CommentExampleTurn()
    ensures UnwrappedRound(COMMENT_EXAMPLE) == UnwrappedRound("x --c*y")
  {
    var e := COMMENT_EXAMPLE;
    CommentExampleCall();
    CommentExampleValue();
    assert e[..0] + "x --c" + e[16..] == "x --c*y";
    RoundRewrites(e, 0, 5, 15);
  }

  /** A value that ends in a line comment: the precision, the parentheses and the newline go. */
  lemma CommentExampleUnwraps()
    ensures UnwrappedRound("round(x --c\n, 2)*y") == Ok("x --c*y")
  {
    CommentExampleTurn();
    CommentExampleCall();
    FreeWithoutParenthesis("x --c*y");
  }

  // ---- unwrap_format_readable_size ----

  /** The first size word from `from` on is at `at`, and the first parenthesis behind it at `open`. */
  ghost predicate FirstFormat(mask: string, from: nat, at: nat, open: nat) {
    && from <= at && WordAt(mask, at, FORMAT_FUNCTION)
    && (forall k :: from <= k < at ==> !WordAt(mask, k, FORMAT_FUNCTION))
    && at + |FORMAT_FUNCTION| <= open < |mask| && mask[open] == '('
    && forall k :: at + |FORMAT_FUNCTION| <= k < open ==> mask[k] != '('
  }

  lemma {:induction false} FirstFormatFound(mask: string, from: nat, at: nat, open: nat)
    requires FirstFormat(mask, from, at, open)
    ensures FirstWord(mask, FORMAT_FUNCTION, from) == Some(at)
    ensures FirstParenthesis(mask, at + |FORMAT_FUNCTION|) == Some(open)
    ensures !FormatFree(mask, from)
  {
    var word := FirstWord(mask, FORMAT_FUNCTION, from);
    assert word.Some? && word.value <= at;
  }

  lemma FormatStepIs(expression: string, from: nat, at: nat, open: nat)
    requires FirstFormat(Mask(expression), from, at, open)
    ensures FormatStep(expression, from) == FormatRewrite(expression, at, open)
  {
    FirstFormatFound(Mask(expression), from, at, open);
  }

  lemma {:induction false} FormatRewriteIs(
      expression: string, at: nat, open: nat, close: nat, next: string, search: nat)
    requires at <= open < |expression| && Matches(Mask(expression), open + 1, close)
    requires next == expression[..at] + expression[open + 1..close] + expression[close + 1..]
    requires search == at + (close - open - 1)
    ensures FormatRewrite(expression, at, open) == Ok(Some((next, search)))
  {
    FormatRewriteMatched(expression, at, open, close);
  }

  lemma {:induction false} FormatTurn(expression: string, from: nat, next: string, search: nat)
    requires FormatStep(expression, from) == Ok(Some((next, search)))
    ensures UnwrappedFormat(expression, from) == UnwrappedFormat(next, search)
  {
  }

  /** The size call is replaced by all of its arguments, and the search goes on behind them. */
  lemma {:induction false} FormatRewrites(
      expression: string, from: nat, at: nat, open: nat, close: nat, next: string, search: nat)
    requires FirstFormat(Mask(expression), from, at, open) && Matches(Mask(expression), open + 1, close)
    requires next == expression[..at] + expression[open + 1..close] + expression[close + 1..]
    requires search == at + (close - open - 1)
    ensures UnwrappedFormat(expression, from) == UnwrappedFormat(next, search)
  {
    FormatStepIs(expression, from, at, open);
    FormatRewriteIs(expression, at, open, close, next, search);
    FormatTurn(expression, from, next, search);
  }

  lemma {:induction false} FormatUnbalanced(expression: string, from: nat, at: nat, open: nat)
    requires FirstFormat(Mask(expression), from, at, open) && NoPartner(Mask(expression), open + 1)
    ensures UnwrappedFormat(expression, from) == Err(Unbalanced)
  {
    FormatStepIs(expression, from, at, open);
    assert Partner(Mask(expression), open + 1).None?;
  }

  /** Without a size word that has a parenthesis behind it the text stays. */
  lemma {:induction false} FormatStops(expression: string, from: nat)
    requires forall at: nat, open: nat :: !FirstFormat(Mask(expression), from, at, open)
    ensures UnwrappedFormat(expression, from) == Ok(expression)
  {
    var mask := Mask(expression);
    if !FormatFree(mask, from) {
      var at := FirstWord(mask, FORMAT_FUNCTION, from).value;
      var open := FirstParenthesis(mask, at + |FORMAT_FUNCTION|).value;
      assert FirstFormat(mask, from, at, open);
    }
  }

  const SIZE_EXAMPLE := "formatReadableSize(x)"

  lemma SizeExampleMask()
    ensures Mask(SIZE_EXAMPLE) == SIZE_EXAMPLE
  {
    var e := SIZE_EXAMPLE;
    forall i | 0 <= i < |e|
      ensures !IsQuote(e[i]) && !OpensComment(e, i)
    {
    }
    MaskFixpoint(e);
  }

  lemma SizeExampleCall()
    ensures FirstFormat(SIZE_EXAMPLE, 0, 0, 18) && Matches(SIZE_EXAMPLE, 19, 20)
  {
    var e := SIZE_EXAMPLE;
    var word := e[0..18];
    assert word == "formatReadableSize";
    assert Lower(word) == FORMAT_FUNCTION;
    NetZero(e, 19, 19);
    NetZero(e, 19, 20);
  }

  lemma NothingToFormat()
    ensures UnwrappedFormat("x", 1) == Ok("x")
  {
    FormatStops("x", 1);
  }

  /** formatReadableSize(x) becomes x. */
  lemma SizeExampleUnwraps()
    ensures UnwrappedFormat("formatReadableSize(x)", 0) == Ok("x")
  {
    var e := SIZE_EXAMPLE;
    SizeExampleMask();
    SizeExampleCall();
    assert e[..0] + e[19..20] + e[21..] == "x";
    FormatRewrites(e, 0, 0, 18, 20, "x", 1);
    NothingToFormat();
  }
}
