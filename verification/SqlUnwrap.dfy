/**
 Replacing round(value, precision) and formatReadableSize(value) by the value.

 Both loops search the mask for a call, find its closing parenthesis and splice
 the argument in; the text is then masked afresh.
 */
module SqlUnwrap {
  import opened Prelude
  import opened SqlMask
  import opened SqlSplit

  datatype UnwrapError = Unbalanced | NoValue

  const ROUND_FUNCTION := "round"
  const FORMAT_FUNCTION := "formatreadablesize"

  // ---- characters (ASCII) ----

  predicate IsWordStart(c: char) {
    'a' <= LowerChar(c) <= 'z' || c == '_'
  }

  predicate IsWord(c: char) {
    IsWordStart(c) || '0' <= c <= '9'
  }

  /** The text without leading and trailing white space. */
  function StripLeft(text: string): string {
    if |text| > 0 && IsSpace(text[0]) then StripLeft(text[1..]) else text
  }

  function StripRight(text: string): string {
    if |text| > 0 && IsSpace(text[|text| - 1]) then StripRight(text[..|text| - 1]) else text
  }

  function Strip(text: string): string {
    StripRight(StripLeft(text))
  }

  // ---- parentheses ----

  /** Opening minus closing parentheses in mask[from..to]. */
  function Net(mask: string, from: nat, to: nat): int
    requires from <= to <= |mask|
  {
    if from == to then 0
    else Net(mask, from, to - 1) + (if mask[to - 1] == '(' then 1 else if mask[to - 1] == ')' then -1 else 0)
  }

  /** mask[close] is the parenthesis that closes one opened just before `from`. */
  ghost predicate Matches(mask: string, from: nat, close: nat) {
    && from <= close < |mask| && mask[close] == ')'
    && Net(mask, from, close) == 0
    && forall k :: from <= k <= close ==> Net(mask, from, k) >= 0
  }

  /** The scan both loops run: the offset after the closing parenthesis, or None at the end of the text. */
  method ScanClosing(mask: string, from: nat) returns (closing: nat, depth: nat)
    requires from <= |mask|
    ensures depth == 0 ==> from < closing && Matches(mask, from, closing - 1)
    ensures depth != 0 ==> forall close :: !Matches(mask, from, close)
  {
    depth := 1;
    closing := from;
    while closing < |mask| && depth != 0
      invariant from <= closing <= |mask|
      invariant depth == 1 + Net(mask, from, closing)
      invariant depth > 0 ==> forall k :: from <= k <= closing ==> Net(mask, from, k) >= 0
      invariant depth == 0 ==> from < closing && Matches(mask, from, closing - 1)
    {
      if mask[closing] == '(' {
        depth := depth + 1;
      } else if mask[closing] == ')' {
        depth := depth - 1;
      }
      closing := closing + 1;
    }
    if depth != 0 {
      forall close: nat | from <= close < |mask|
        ensures !Matches(mask, from, close)
      {
        assert Net(mask, from, close + 1) >= 0;
      }
    }
  }

  /** A parenthesis has at most one partner. */
  lemma MatchUnique(mask: string, from: nat, a: nat, b: nat)
    requires Matches(mask, from, a) && Matches(mask, from, b)
    ensures a == b
  {
    assert Net(mask, from, a + 1) == -1 && Net(mask, from, b + 1) == -1;
  }

  /** The partner of the parenthesis before `from`, if it has one. */
  ghost function Partner(mask: string, from: nat): (close: Option<nat>)
    ensures close.Some? ==> Matches(mask, from, close.value)
    ensures close.None? ==> forall k :: !Matches(mask, from, k)
  {
    if k: nat :| Matches(mask, from, k) then Some(k) else None
  }

  // ---- the round calls of a mask ----

  predicate WordAt(mask: string, at: nat, word: string) {
    at + |word| <= |mask| && Lower(mask[at..at + |word|]) == word
  }

  /** \bround\s*\( matches at `at`, with its parenthesis at `open`. */
  predicate RoundCall(mask: string, at: nat, open: nat) {
    && (at > 0 && at <= |mask| ==> !IsWord(mask[at - 1]))
    && WordAt(mask, at, ROUND_FUNCTION)
    && at + |ROUND_FUNCTION| <= open < |mask| && mask[open] == '('
    && forall k :: at + |ROUND_FUNCTION| <= k < open ==> IsSpace(mask[k])
  }

  /** No offset before `limit` starts a round call. */
  ghost predicate NoRoundBefore(mask: string, limit: nat) {
    forall at: nat, open: nat :: at < limit ==> !RoundCall(mask, at, open)
  }

  ghost predicate FirstRound(mask: string, at: nat, open: nat) {
    RoundCall(mask, at, open) && NoRoundBefore(mask, at)
  }

  lemma OneParenthesis(mask: string, at: nat, a: nat, b: nat)
    requires RoundCall(mask, at, a) && RoundCall(mask, at, b)
    ensures a == b
  {
    assert !IsSpace(mask[a]) && !IsSpace(mask[b]);
  }

  lemma FirstRoundUnique(mask: string, at: nat, open: nat, at': nat, open': nat)
    requires FirstRound(mask, at, open) && FirstRound(mask, at', open')
    ensures at == at' && open == open'
  {
    OneParenthesis(mask, at, open, open');
  }

  /** re.search for a round call, then mask.find of its parenthesis. */
  method SearchRound(mask: string) returns (at: nat, open: nat, found: bool)
    ensures found ==> FirstRound(mask, at, open)
    ensures !found ==> NoRoundBefore(mask, |mask|)
  {
    at, open, found := 0, 0, false;
    while at < |mask|
      invariant at <= |mask| && NoRoundBefore(mask, at)
    {
      if WordAt(mask, at, ROUND_FUNCTION) && (at == 0 || !IsWord(mask[at - 1])) {
        open := at + |ROUND_FUNCTION|;
        while open < |mask| && IsSpace(mask[open])
          invariant at + |ROUND_FUNCTION| <= open <= |mask|
          invariant forall k :: at + |ROUND_FUNCTION| <= k < open ==> IsSpace(mask[k])
        {
          open := open + 1;
        }
        if open < |mask| && mask[open] == '(' {
          return at, open, true;
        }
        assert open < |mask| ==> mask[open] != '(' && !IsSpace(mask[open]);
      }
      at := at + 1;
    }
  }

  // ---- subsequences ----

  /** `part` is left of `whole` when some characters are deleted. */
  predicate Subsequence(part: string, whole: string) {
    part == [] ||
    (whole != [] && Subsequence(if part[0] == whole[0] then part[1..] else part, whole[1..]))
  }

  lemma {:induction false} SubsequenceTail(part: string, whole: string)
    requires part != [] && Subsequence(part, whole)
    ensures Subsequence(part[1..], whole)
    decreases |whole|
  {
    if part[0] == whole[0] {
      SubsequenceSkip(part[1..], whole);
    } else {
      SubsequenceTail(part, whole[1..]);
      SubsequenceSkip(part[1..], whole);
    }
  }

  /** A character more in front of the text keeps its subsequences. */
  lemma {:induction false} SubsequenceSkip(part: string, whole: string)
    requires whole != [] && Subsequence(part, whole[1..])
    ensures Subsequence(part, whole)
    decreases |whole|, 0
  {
    if part != [] && part[0] == whole[0] {
      SubsequenceTail(part, whole[1..]);
    }
  }

  lemma {:induction false} SubsequenceTrans(a: string, b: string, c: string)
    requires Subsequence(a, b) && Subsequence(b, c)
    ensures Subsequence(a, c)
    decreases |c|
  {
    if a != [] {
      if b[0] == c[0] {
        SubsequenceTrans(if a[0] == b[0] then a[1..] else a, b[1..], c[1..]);
        if a[0] != b[0] {
          SubsequenceSkip(a, c);
        }
      } else {
        SubsequenceTrans(a, b, c[1..]);
        SubsequenceSkip(a, c);
      }
    }
  }

  lemma {:induction false} SubsequenceSuffix(whole: string, n: nat)
    requires n <= |whole|
    ensures Subsequence(whole[n..], whole)
    decreases |whole|
  {
    if n == 0 {
      if whole != [] {
        SubsequenceSuffix(whole[1..], 0);
      }
    } else {
      SubsequenceSuffix(whole[1..], n - 1);
      assert whole[n..] == whole[1..][n - 1..];
      SubsequenceSkip(whole[n..], whole);
    }
  }

  /** Deleting the middle of a prefix-middle-rest text. */
  lemma {:induction false} SubsequencePrefix(prefix: string, part: string, whole: string)
    requires Subsequence(part, whole)
    ensures Subsequence(prefix + part, prefix + whole)
  {
    if prefix != [] {
      SubsequencePrefix(prefix[1..], part, whole);
      assert (prefix + part)[1..] == prefix[1..] + part;
      assert (prefix + whole)[1..] == prefix[1..] + whole;
    } else {
      assert prefix + part == part && prefix + whole == whole;
    }
  }

  lemma {:induction false} CutOne(text: string, a: nat, b: nat)
    requires a <= b <= |text|
    ensures Subsequence(text[..a] + text[b..], text)
  {
    SubsequenceSuffix(text[a..], b - a);
    assert text[a..][b - a..] == text[b..];
    SubsequencePrefix(text[..a], text[b..], text[a..]);
    assert text[..a] + text[a..] == text;
  }

  lemma CutPieces(text: string, a: nat, b: nat, c: nat, d: nat)
    requires a <= b <= c <= d <= |text|
    ensures var once := text[..c] + text[d..];
            once[..a] + once[b..] == text[..a] + text[b..c] + text[d..]
  {
    var once := text[..c] + text[d..];
    assert once[..a] == text[..a];
    assert once[b..] == text[b..c] + text[d..];
  }

  /** Cutting text[a..b] and text[c..d] out of the text. */
  lemma {:induction false} CutTwo(text: string, a: nat, b: nat, c: nat, d: nat)
    requires a <= b <= c <= d <= |text|
    ensures Subsequence(text[..a] + text[b..c] + text[d..], text)
  {
    var once := text[..c] + text[d..];
    CutOne(text, c, d);
    CutOne(once, a, b);
    CutPieces(text, a, b, c, d);
    SubsequenceTrans(text[..a] + text[b..c] + text[d..], once, text);
  }

  // ---- unwrap_round ----

  lemma {:induction false} StripLeftBounds(text: string) returns (from: nat)
    ensures from <= |text| && StripLeft(text) == text[from..]
    ensures forall k :: 0 <= k < from ==> IsSpace(text[k])
  {
    if |text| > 0 && IsSpace(text[0]) {
      var rest := StripLeftBounds(text[1..]);
      from := rest + 1;
      assert text[1..][rest..] == text[from..];
      assert forall k :: 0 < k < from ==> text[k] == text[1..][k - 1];
    } else {
      from := 0;
    }
  }

  lemma {:induction false} StripRightBounds(text: string) returns (to: nat)
    ensures to <= |text| && StripRight(text) == text[..to]
    ensures forall k :: to <= k < |text| ==> IsSpace(text[k])
  {
    if |text| > 0 && IsSpace(text[|text| - 1]) {
      to := StripRightBounds(text[..|text| - 1]);
      assert text[..|text| - 1][..to] == text[..to];
    } else {
      to := |text|;
    }
  }

  lemma {:induction false} FirstPieceBounds(text: string, i: nat) returns (to: nat)
    requires i <= |text| && forall k :: 0 <= k < i ==> !TopComma(text, k)
    ensures to <= |text| && SplitFrom(text, 0, i)[0] == text[..to]
    ensures forall k :: 0 <= k < to ==> !TopComma(text, k)
    ensures to < |text| ==> TopComma(text, to)
    decreases |text| - i
  {
    if i == |text| || TopComma(text, i) {
      to := i;
    } else {
      to := FirstPieceBounds(text, i + 1);
    }
  }

  /** The value argument of the call whose parentheses are at open and close. */
  function CallValue(expression: string, open: nat, close: nat): string
    requires open < close <= |expression|
  {
    Strip(Split(expression[open + 1..close])[0])
  }

  lemma SliceOfSlice(text: string, a: nat, b: nat, c: nat, d: nat)
    requires a <= b <= |text| && c <= d <= b - a
    ensures text[a..b][c..d] == text[a + c..a + d]
  {
    var left, right := text[a..b][c..d], text[a + c..a + d];
    assert |left| == |right| && forall k :: 0 <= k < |left| ==> left[k] == right[k];
  }

  /** The value is a slice of the text between the parentheses. */
  lemma CallValueBounds(expression: string, open: nat, close: nat) returns (from: nat, to: nat)
    requires open < close <= |expression|
    ensures open < from <= to <= close && CallValue(expression, open, close) == expression[from..to]
  {
    var inner := expression[open + 1..close];
    var cut := FirstPieceBounds(inner, 0);
    var left := StripLeftBounds(inner[..cut]);
    var right := StripRightBounds(inner[..cut][left..]);
    from, to := open + 1 + left, open + 1 + left + right;
    SliceOfSlice(expression, open + 1, close, 0, cut);
    SliceOfSlice(expression, open + 1, open + 1 + cut, left, cut);
    SliceOfSlice(expression, from, open + 1 + cut, 0, right);
  }

  /** The value is the text up to the first comma that is not nested, without the white space around it. */
  lemma CallValueIsFirstArgument(expression: string, open: nat, close: nat) returns (comma: nat)
    requires open < close < |expression|
    requires Mask(expression)[open] == '(' && Mask(expression)[close] == ')'
    ensures open < comma <= close && CallValue(expression, open, close) == Strip(expression[open + 1..comma])
    ensures comma < close ==> Mask(expression)[comma] == ','
    ensures forall k :: open < k < comma && Mask(expression)[k] == ',' ==>
              Depth(Mask(expression)[open + 1..close], k - open - 1) > 0
  {
    var inner := expression[open + 1..close];
    var cut := FirstPieceBounds(inner, 0);
    ArgumentsKeepTheirMask(expression, open, close);
    comma := open + 1 + cut;
    SliceOfSlice(expression, open + 1, close, 0, cut);
    forall k | open < k < comma && Mask(expression)[k] == ','
      ensures Depth(Mask(expression)[open + 1..close], k - open - 1) > 0
    {
      assert Mask(inner)[k - open - 1] == Mask(expression)[k];
      assert !TopComma(inner, k - open - 1);
    }
  }

  function Splice(expression: string, at: nat, value: string, after: nat): string
    requires at <= after <= |expression|
  {
    expression[..at] + value + expression[after..]
  }

  lemma SpliceShorter(expression: string, at: nat, open: nat, close: nat)
    requires at <= open < close < |expression|
    ensures |Splice(expression, at, CallValue(expression, open, close), close + 1)| < |expression|
    ensures Subsequence(Splice(expression, at, CallValue(expression, open, close), close + 1), expression)
  {
    var from, to := CallValueBounds(expression, open, close);
    CutTwo(expression, at, from, to, close + 1);
  }

  ghost function FirstRoundIn(mask: string): (call: Option<(nat, nat)>)
    ensures call.Some? ==> FirstRound(mask, call.value.0, call.value.1)
    ensures call.None? ==> NoRoundBefore(mask, |mask|)
  {
    if NoRoundBefore(mask, |mask|) then None
    else
      SomeFirstRound(mask, |mask|);
      var at: nat, open: nat :| FirstRound(mask, at, open);
      Some((at, open))
  }

  lemma {:induction false} SomeFirstRound(mask: string, limit: nat)
    requires limit <= |mask| && !NoRoundBefore(mask, limit)
    ensures exists at: nat, open: nat :: FirstRound(mask, at, open)
  {
    if !NoRoundBefore(mask, limit - 1) {
      SomeFirstRound(mask, limit - 1);
    } else {
      var at: nat, open: nat :| at < limit && RoundCall(mask, at, open);
      assert at == limit - 1 && FirstRound(mask, at, open);
    }
  }

  /** No round call is visible in the text. */
  ghost predicate RoundFree(text: string) {
    NoRoundBefore(Mask(text), |text|)
  }

  /** Splicing the value of the call whose word is at `at` and whose parenthesis is at `open`. */
  ghost function RoundRewrite(expression: string, at: nat, open: nat): (step: Result<Option<string>, UnwrapError>)
    requires at <= open < |expression|
    ensures step != Ok(None)
    ensures step.Ok? ==> |step.value.value| < |expression| && Subsequence(step.value.value, expression)
  {
    match Partner(Mask(expression), open + 1)
    case None => Err(Unbalanced)
    case Some(close) =>
      if CallValue(expression, open, close) == "" then Err(NoValue)
      else
        SpliceShorter(expression, at, open, close);
        Ok(Some(Splice(expression, at, CallValue(expression, open, close), close + 1)))
  }

  /** One turn of the loop: nothing left to do, the rewritten text, or the error raised. */
  ghost function RoundStep(expression: string): (step: Result<Option<string>, UnwrapError>)
    ensures step == Ok(None) <==> RoundFree(expression)
    ensures step.Ok? && step.value.Some? ==>
              |step.value.value| < |expression| && Subsequence(step.value.value, expression)
  {
    match FirstRoundIn(Mask(expression))
    case None => Ok(None)
    case Some((at, open)) =>
      assert RoundCall(Mask(expression), at, open);
      RoundRewrite(expression, at, open)
  }

  /** What unwrap_round returns: rewrite the first call until none is left. */
  ghost function UnwrappedRound(expression: string): Result<string, UnwrapError>
    decreases |expression|
  {
    match RoundStep(expression)
    case Err(error) => Err(error)
    case Ok(None) => Ok(expression)
    case Ok(Some(next)) => UnwrappedRound(next)
  }

  /**
   unwrap_round only deletes characters, its result shows no round call, and it
   changes nothing exactly when there was none.
   */
  lemma {:induction false} UnwrapRoundMeaning(expression: string)
    ensures UnwrappedRound(expression).Ok? ==>
              RoundFree(UnwrappedRound(expression).value)
              && Subsequence(UnwrappedRound(expression).value, expression)
              && |UnwrappedRound(expression).value| <= |expression|
              && (UnwrappedRound(expression).value == expression <==> RoundFree(expression))
    ensures RoundFree(expression) ==> UnwrappedRound(expression) == Ok(expression)
    decreases |expression|
  {
    match RoundStep(expression)
    case Err(_) =>
    case Ok(None) =>
      SubsequenceSuffix(expression, 0);
    case Ok(Some(next)) =>
      UnwrapRoundMeaning(next);
      if UnwrappedRound(next).Ok? {
        SubsequenceTrans(UnwrappedRound(next).value, next, expression);
      }
  }

  lemma PartnerIs(mask: string, from: nat, close: nat)
    requires Matches(mask, from, close)
    ensures Partner(mask, from) == Some(close)
  {
    MatchUnique(mask, from, Partner(mask, from).value, close);
  }

  lemma FirstRoundFound(mask: string, at: nat, open: nat)
    requires FirstRound(mask, at, open)
    ensures FirstRoundIn(mask) == Some((at, open))
  {
    assert RoundCall(mask, at, open);
    var call := FirstRoundIn(mask);
    FirstRoundUnique(mask, call.value.0, call.value.1, at, open);
  }

  lemma RoundRewriteMatched(expression: string, at: nat, open: nat, close: nat)
    requires at <= open < |expression| && Matches(Mask(expression), open + 1, close)
    ensures RoundRewrite(expression, at, open) ==
            var value := CallValue(expression, open, close);
            if value == "" then Err(NoValue) else Ok(Some(Splice(expression, at, value, close + 1)))
  {
    PartnerIs(Mask(expression), open + 1, close);
  }

  /** mask.find("(", start) is the parenthesis the pattern matched. */
  method FindOpening(mask: string, start: nat, ghost open: nat) returns (opening: int)
    requires RoundCall(mask, start, open)
    ensures opening == open
  {
    RoundHasNoParenthesis(mask, start, open);
    opening := FindChar(mask, '(', start);
    assert opening <= open;
    assert opening >= start && mask[opening] == '(';
  }

  method RewriteRoundAt(expression: string, mask: string, start: nat, opening: nat)
    returns (step: Result<Option<string>, UnwrapError>)
    requires mask == Mask(expression) && start <= opening < |expression|
    ensures step == RoundRewrite(expression, start, opening)
  {
    var closing, depth := ScanClosing(mask, opening + 1);
    if depth != 0 {
      return Err(Unbalanced);
    }
    RoundRewriteMatched(expression, start, opening, closing - 1);
    var arguments := SplitExpressions(expression[opening + 1..closing - 1]);
    var value := Strip(arguments[0]);
    if value == "" {
      return Err(NoValue);
    }
    return Ok(Some(expression[..start] + value + expression[closing..]));
  }

  /** The body of the loop in unwrap_round. */
  method RewriteFirstRound(expression: string) returns (step: Result<Option<string>, UnwrapError>)
    ensures step == RoundStep(expression)
  {
    var mask := SqlMask.SqlMask(expression);
    var start, open, found := SearchRound(mask);
    if !found {
      return Ok(None);
    }
    var opening := FindOpening(mask, start, open);
    FirstRoundFound(mask, start, open);
    step := RewriteRoundAt(expression, mask, start, opening);
  }

  /** unwrap_round */
  method UnwrapRound(source: string) returns (result: Result<string, UnwrapError>)
    ensures result == UnwrappedRound(source)
  {
    var expression := source;
    while true
      invariant UnwrappedRound(expression) == UnwrappedRound(source)
      decreases |expression|
    {
      var step := RewriteFirstRound(expression);
      match step
      case Err(error) => return Err(error);
      case Ok(None) => return Ok(expression);
      case Ok(Some(next)) => expression := next;
    }
  }

  lemma RoundHasNoParenthesis(mask: string, at: nat, open: nat)
    requires RoundCall(mask, at, open)
    ensures forall k :: at <= k < open ==> mask[k] != '('
  {
    forall k | at <= k < at + |ROUND_FUNCTION|
      ensures mask[k] != '('
    {
      var word := mask[at..at + |ROUND_FUNCTION|];
      assert Lower(word)[k - at] == ROUND_FUNCTION[k - at];
      assert word[k - at] == mask[k];
    }
  }

  // ---- what a rewrite does to the visible text ----

  /** Masking the arguments of a call on their own shows what the mask of the whole text shows there. */
  lemma ArgumentsKeepTheirMask(expression: string, open: nat, close: nat)
    requires open < close < |expression|
    requires Mask(expression)[open] == '(' && Mask(expression)[close] == ')'
    ensures Mask(expression[open + 1..close]) == Mask(expression)[open + 1..close]
  {
    assert Mask(expression)[open] == MaskChar(expression, open);
    assert Mask(expression)[close] == MaskChar(expression, close);
    MaskLocality(expression, open + 1, close);
  }

  lemma VisibleCallStart(expression: string, at: nat, open: nat)
    requires RoundCall(Mask(expression), at, open)
    ensures CutStart(expression, at) && expression[at] != '\n'
  {
    var mask := Mask(expression);
    var word := mask[at..at + |ROUND_FUNCTION|];
    assert LowerChar(word[0]) == Lower(word)[0] == 'r';
    assert mask[at] == word[0] == MaskChar(expression, at);
  }

  // ---- how a value can end ----

  lemma {:induction false} SpacesStayCode(text: string, k: nat)
    requires k <= |text| && forall j :: 0 <= j < k ==> IsSpace(text[j])
    ensures ModeAt(text, k) == Code
  {
    if k > 0 {
      SpacesStayCode(text, k - 1);
    }
  }

  /** White space never leaves a literal or a block comment. */
  lemma {:induction false} SpacesStayInside(text: string, from: nat, k: nat)
    requires from <= k <= |text| && forall j :: from <= j < k ==> IsSpace(text[j])
    requires ModeAt(text, from).Quoted? || ModeAt(text, from) == Block
    ensures ModeAt(text, k) == ModeAt(text, from)
  {
    if from < k {
      SpacesStayInside(text, from, k - 1);
      QuoteOfMode(text, from);
    }
  }

  /** What stands before trailing white space of a text that ends in code stands in code or in a line comment. */
  lemma {:induction false} BeforeSpaces(text: string, to: nat)
    requires ModeAt(text, |text|) == Code && to <= |text| && forall j :: to <= j < |text| ==> IsSpace(text[j])
    ensures ModeAt(text, to) == Code || ModeAt(text, to) == Line
  {
    QuoteOfMode(text, to);
    if ModeAt(text, to).Quoted? || ModeAt(text, to) == Block {
      SpacesStayInside(text, to, |text|);
      assert false;
    } else if to > 0 {
      QuoteOfMode(text, to - 1);
    }
  }

  lemma {:induction false} WithoutSpaces(text: string, to: nat)
    requires ModeAt(text, |text|) == Code && to <= |text| && forall j :: to <= j < |text| ==> IsSpace(text[j])
    ensures ModeAt(text[..to], to) == Code || ModeAt(text[..to], to) == Line
  {
    BeforeSpaces(text, to);
    if to > 0 {
      var part := text[..to];
      ModeLocal(text, 0, to, to - 1);
      QuoteOfMode(text, to - 1);
      assert text[0..to] == part && part[to - 1] == text[to - 1];
      assert ModeAt(text, to) == Next(ModeAt(text, to - 1), text, to - 1);
      assert ModeAt(part, to) == Next(ModeAt(part, to - 1), part, to - 1);
    }
  }

  /** The first argument as it stands between the parentheses ends in code. */
  lemma {:induction false} FirstPieceEndsInCode(inner: string, cut: nat)
    requires ModeAt(inner, |inner|) == Code && cut <= |inner| && (cut < |inner| ==> TopComma(inner, cut))
    ensures ModeAt(inner[..cut], cut) == Code
  {
    if cut < |inner| {
      VisibleIsCut(inner, cut);
    }
    EndModeLocal(inner, 0, cut);
    assert inner[0..cut] == inner[..cut];
  }

  lemma {:induction false} StrippedEnd(piece: string)
    requires ModeAt(piece, |piece|) == Code
    ensures ModeAt(Strip(piece), |Strip(piece)|) == Code || ModeAt(Strip(piece), |Strip(piece)|) == Line
  {
    var left := StripLeftBounds(piece);
    var rest := piece[left..];
    SpacesStayCode(piece, left);
    EndModeLocal(piece, left, |piece|);
    assert piece[left..|piece|] == rest;
    var right := StripRightBounds(rest);
    WithoutSpaces(rest, right);
  }

  /** The value of a call ends in code, or in a line comment whose newline was stripped. */
  lemma ValueEnd(expression: string, open: nat, close: nat)
    requires open < close < |expression|
    requires Mask(expression)[open] == '(' && Mask(expression)[close] == ')'
    ensures var value := CallValue(expression, open, close);
            ModeAt(value, |value|) == Code || ModeAt(value, |value|) == Line
  {
    var inner := expression[open + 1..close];
    VisibleIsCut(expression, open);
    VisibleIsCut(expression, close);
    EndModeLocal(expression, open + 1, close);
    var cut := FirstPieceBounds(inner, 0);
    FirstPieceEndsInCode(inner, cut);
    StrippedEnd(inner[..cut]);
  }

  /** The text behind the value stays as visible as it was. */
  predicate GoesOnVisibly(value: string, after: string) {
    if ModeAt(value, |value|) == Code then !Seam(value, after) else SurvivesLine(after)
  }

  /**
   One rewrite shows the text before the call, the value and the text after the
   call, each masked as it was, exactly when the value forms no comment opener
   with its neighbours and, if it ends in a line comment, the text after the call
   survives that comment.
   */
  lemma RewriteMask(expression: string, at: nat, open: nat, close: nat)
    requires RoundCall(Mask(expression), at, open) && open < close < |expression|
    requires Mask(expression)[close] == ')' && CallValue(expression, open, close) != ""
    ensures var value := CallValue(expression, open, close);
            Mask(Splice(expression, at, value, close + 1)) == Splice(Mask(expression), at, Mask(value), close + 1)
            <==> !Seam(expression[..at], value) && GoesOnVisibly(value, expression[close + 1..])
  {
    var value := CallValue(expression, open, close);
    var before, after := expression[..at], expression[close + 1..];
    VisibleCallStart(expression, at, open);
    VisibleIsCut(expression, close);
    EndModeLocal(expression, 0, at);
    MaskLocality(expression, 0, at);
    MaskLocality(expression, close + 1, |expression|);
    assert expression[0..at] == before && expression[close + 1..|expression|] == after;
    ValueEnd(expression, open, close);
    JoinThree(before, value, after);
  }

  lemma {:induction false} JoinBack(value: string, after: string)
    requires ModeAt(value, |value|) == Code || ModeAt(value, |value|) == Line
    ensures Mask(value + after) == Mask(value) + Mask(after) <==> GoesOnVisibly(value, after)
  {
    if ModeAt(value, |value|) == Code {
      MaskConcat(value, after);
    } else {
      MaskConcatLine(value, after);
    }
  }

  lemma JoinFront(before: string, rest: string, shown: string)
    requires CutStart(before, |before|)
    ensures Mask(before + rest) == Mask(before) + shown <==> !Seam(before, rest) && Mask(rest) == shown
  {
    MaskConcat(before, rest);
    if Seam(before, rest) {
      SeamIsLost(before, rest);
      assert (Mask(before) + shown)[|before| - 1] == Mask(before)[|before| - 1];
    } else {
      SameTail(Mask(before), Mask(rest), shown);
    }
  }

  lemma {:induction false} JoinThree(before: string, value: string, after: string)
    requires CutStart(before, |before|) && value != ""
    requires ModeAt(value, |value|) == Code || ModeAt(value, |value|) == Line
    ensures Mask(before + value + after) == Mask(before) + Mask(value) + Mask(after)
            <==> !Seam(before, value) && GoesOnVisibly(value, after)
  {
    Associative(before, value, after);
    Associative(Mask(before), Mask(value), Mask(after));
    SameSeam(before, value, after);
    JoinBack(value, after);
    JoinFront(before, value + after, Mask(value) + Mask(after));
  }

  lemma Associative(a: string, b: string, c: string)
    ensures a + b + c == a + (b + c)
  {
  }

  lemma SameSeam(before: string, value: string, after: string)
    requires value != ""
    ensures Seam(before, value + after) <==> Seam(before, value)
  {
    assert (value + after)[0] == value[0];
  }

  const SEAM_EXAMPLE := "-round(-x)"

  lemma SeamExampleIsClean()
    ensures Mask(SEAM_EXAMPLE) == SEAM_EXAMPLE && Mask("-x") == "-x"
  {
    var e := SEAM_EXAMPLE;
    assert e[1] == 'r' && e[8] == 'x';
    assert forall c :: c in e ==> c in {'-', 'r', 'o', 'u', 'n', 'd', '(', 'x', ')'};
    forall i | 0 <= i < |e|
      ensures !IsQuote(e[i]) && !OpensComment(e, i)
    {
      assert e[i] in e;
      assert e[i] == '-' ==> i == 0 || i == 7;
    }
    MaskFixpoint(e);
    MaskFixpoint("-x");
  }

  lemma SeamExampleValue()
    ensures CallValue(SEAM_EXAMPLE, 6, 9) == "-x"
  {
    var inner := "-x";
    SeamExampleIsClean();
    assert SEAM_EXAMPLE[7..9] == inner;
    AtomicSplit(inner, 0);
    assert Strip(inner) == inner;
  }

  lemma RoundWord(e: string)
    requires e == SEAM_EXAMPLE
    ensures WordAt(e, 1, ROUND_FUNCTION)
  {
    var word := e[1..6];
    assert word == ROUND_FUNCTION;
    forall i | 0 <= i < |word|
      ensures LowerChar(word[i]) == word[i]
    {
    }
    assert Lower(word) == word;
  }

  /** Such a neighbour exists: unwrapping -round(-x) comments the value out. */
  lemma MinusRoundMinus()
    ensures RoundCall(Mask(SEAM_EXAMPLE), 1, 6) && Matches(Mask(SEAM_EXAMPLE), 7, 9)
    ensures var next := Splice(SEAM_EXAMPLE, 1, CallValue(SEAM_EXAMPLE, 6, 9), 10);
            next == "--x" && Mask(next) == "   "
  {
    var e := SEAM_EXAMPLE;
    SeamExampleIsClean();
    SeamExampleValue();
    RoundWord(e);
    assert Net(e, 7, 7) == 0 && Net(e, 7, 8) == 0 && Net(e, 7, 9) == 0;
    var next := "--x";
    assert Splice(e, 1, "-x", 10) == next;
    assert ModeAt(next, 0) == Code && ModeAt(next, 1) == Line && ModeAt(next, 2) == Line;
    assert Mask(next) == [MaskChar(next, 0), MaskChar(next, 1), MaskChar(next, 2)];
  }

  const COMMENT_EXAMPLE := "round(x --c\n, 2)*y"

  /** The modes of the example: one line comment, from offset 8 to the newline at 11. */
  lemma {:induction false} CommentModes(k: nat)
    requires k <= |COMMENT_EXAMPLE|
    ensures ModeAt(COMMENT_EXAMPLE, k) == if 8 < k < 11 then Line else Code
  {
    if k > 0 {
      CommentModes(k - 1);
    }
  }

  lemma CommentExampleMask()
    ensures Mask(COMMENT_EXAMPLE) == "round(x    \n, 2)*y"
  {
    var e, mask := COMMENT_EXAMPLE, "round(x    \n, 2)*y";
    forall k | 0 <= k < |e|
      ensures Mask(e)[k] == mask[k]
    {
      CommentModes(k);
    }
    assert |Mask(e)| == |mask|;
  }

  lemma CommentExampleInner()
    ensures Mask(COMMENT_EXAMPLE[6..15]) == "x    \n, 2"
  {
    CommentExampleMask();
    ArgumentsKeepTheirMask(COMMENT_EXAMPLE, 5, 15);
  }

  lemma CommentExampleValue()
    ensures CallValue(COMMENT_EXAMPLE, 5, 15) == "x --c"
  {
    var inner := COMMENT_EXAMPLE[6..15];
    CommentExampleInner();
    var cut := FirstPieceBounds(inner, 0);
    CommaAtSix(inner);
    assert cut == 6;
    assert inner[..6] == COMMENT_EXAMPLE[6..12] == "x --c\n";
    CommentStripped();
  }

  lemma CommentStripped()
    ensures Strip("x --c\n") == "x --c"
  {
    assert StripLeft("x --c\n") == "x --c\n";
    assert "x --c\n"[..5] == "x --c";
  }

  lemma CommaAtSix(inner: string)
    requires Mask(inner) == "x    \n, 2"
    ensures TopComma(inner, 6) && forall k :: 0 <= k < 6 ==> !TopComma(inner, k)
  {
    var mask := Mask(inner);
    assert Depth(mask, 0) == 0;
    assert Depth(mask, 1) == 0;
    assert Depth(mask, 2) == 0;
    assert Depth(mask, 3) == 0;
    assert Depth(mask, 4) == 0;
    assert Depth(mask, 5) == 0;
    assert Depth(mask, 6) == 0;
  }

  lemma CommentedOut()
    ensures Mask("x --c*y") == "x      "
  {
    var next := "x --c*y";
    assert ModeAt(next, 0) == Code && ModeAt(next, 1) == Code && ModeAt(next, 2) == Code;
    assert ModeAt(next, 3) == Line && ModeAt(next, 4) == Line && ModeAt(next, 5) == Line && ModeAt(next, 6) == Line;
    assert Mask(next) == [MaskChar(next, 0), MaskChar(next, 1), MaskChar(next, 2), MaskChar(next, 3),
                          MaskChar(next, 4), MaskChar(next, 5), MaskChar(next, 6)];
  }

  /** A value that loses its newline takes the text behind the call into its comment. */
  lemma CommentTakesTheRest()
    ensures RoundCall(Mask(COMMENT_EXAMPLE), 0, 5) && Matches(Mask(COMMENT_EXAMPLE), 6, 15)
    ensures var value := CallValue(COMMENT_EXAMPLE, 5, 15);
            var next := Splice(COMMENT_EXAMPLE, 0, value, 16);
            && next == "x --c*y" && Mask(next) == "x      "
            && !Seam("", value) && !Seam(value, "*y") && !GoesOnVisibly(value, "*y")
  {
    var e := COMMENT_EXAMPLE;
    CommentExampleMask();
    CommentExampleValue();
    FirstWordOf(Mask(e));
    CommentNet(Mask(e));
    CommentedOut();
    assert Splice(e, 0, "x --c", 16) == "x --c*y";
    var value := "x --c";
    assert ModeAt(value, 3) == Line && ModeAt(value, 4) == Line && ModeAt(value, 5) == Line;
    assert LineEnd("*y", 1) == 2 && MaskChar("*y", 0) == '*';
  }

  lemma FirstWordOf(mask: string)
    requires mask == "round(x    \n, 2)*y"
    ensures RoundCall(mask, 0, 5)
  {
    var word := mask[0..5];
    assert word == ROUND_FUNCTION;
    forall i | 0 <= i < |word|
      ensures LowerChar(word[i]) == word[i]
    {
    }
    assert Lower(word) == word;
  }

  lemma {:induction false} NetZero(mask: string, from: nat, to: nat)
    requires from <= to <= |mask| && forall k :: from <= k < to ==> mask[k] != '(' && mask[k] != ')'
    ensures Net(mask, from, to) == 0
  {
    if from < to {
      NetZero(mask, from, to - 1);
    }
  }

  lemma CommentNet(mask: string)
    requires mask == "round(x    \n, 2)*y"
    ensures Matches(mask, 6, 15)
  {
    forall k | 6 <= k <= 15
      ensures Net(mask, 6, k) == 0
    {
      NetZero(mask, 6, k);
    }
  }

  // ---- unwrap_format_readable_size ----

  /** lowered.find(word, from) */
  function FirstWord(mask: string, word: string, from: nat): (at: Option<nat>)
    ensures at.Some? ==> from <= at.value && WordAt(mask, at.value, word)
    ensures forall k :: from <= k < (if at.Some? then at.value else |mask| + 1) ==> !WordAt(mask, k, word)
    decreases |mask| + 1 - from
  {
    if from > |mask| then None
    else if WordAt(mask, from, word) then Some(from)
    else FirstWord(mask, word, from + 1)
  }

  /** lowered.find("(", from) */
  function FirstParenthesis(mask: string, from: nat): (at: Option<nat>)
    ensures at.Some? ==> from <= at.value < |mask| && mask[at.value] == '('
    ensures forall k :: from <= k < (if at.Some? then at.value else |mask|) ==> mask[k] != '('
    decreases |mask| - from
  {
    if from >= |mask| then None
    else if mask[from] == '(' then Some(from)
    else FirstParenthesis(mask, from + 1)
  }

  /** A size call at or after `from`: the word, and some parenthesis after it, however far. */
  predicate FormatCall(mask: string, from: nat, at: nat, open: nat) {
    && from <= at && WordAt(mask, at, FORMAT_FUNCTION)
    && at + |FORMAT_FUNCTION| <= open < |mask| && mask[open] == '('
  }

  predicate FormatFree(mask: string, from: nat) {
    match FirstWord(mask, FORMAT_FUNCTION, from)
    case None => true
    case Some(at) => FirstParenthesis(mask, at + |FORMAT_FUNCTION|).None?
  }

  lemma FormatFreeMeaning(mask: string, from: nat)
    ensures FormatFree(mask, from) <==> forall at, open :: !FormatCall(mask, from, at, open)
  {
    if !FormatFree(mask, from) {
      var at := FirstWord(mask, FORMAT_FUNCTION, from).value;
      assert FormatCall(mask, from, at, FirstParenthesis(mask, at + |FORMAT_FUNCTION|).value);
    }
  }

  /** Splicing out the call whose word is at `at` and whose parenthesis is at `open`. */
  ghost function FormatRewrite(expression: string, at: nat, open: nat)
    : (step: Result<Option<(string, nat)>, UnwrapError>)
    requires at <= open < |expression|
    ensures step != Ok(None)
    ensures step.Ok? ==>
              var (next, search) := step.value.value;
              |next| < |expression| && search <= |next| && Subsequence(next, expression)
  {
    match Partner(Mask(expression), open + 1)
    case None => Err(Unbalanced)
    case Some(close) =>
      CutTwo(expression, at, open + 1, close, close + 1);
      Ok(Some((Splice(expression, at, expression[open + 1..close], close + 1), at + (close - open - 1))))
  }

  /** One turn of the loop: done, the next text with the offset to search from, or the error raised. */
  ghost function FormatStep(expression: string, from: nat): (step: Result<Option<(string, nat)>, UnwrapError>)
    ensures step == Ok(None) <==> FormatFree(Mask(expression), from)
    ensures step.Ok? && step.value.Some? ==>
              var (next, search) := step.value.value;
              |next| < |expression| && search <= |next| && Subsequence(next, expression)
  {
    var mask := Mask(expression);
    if FormatFree(mask, from) then Ok(None)
    else
      var at := FirstWord(mask, FORMAT_FUNCTION, from).value;
      var open := FirstParenthesis(mask, at + |FORMAT_FUNCTION|).value;
      FormatRewrite(expression, at, open)
  }

  ghost function UnwrappedFormat(expression: string, from: nat): Result<string, UnwrapError>
    decreases |expression|
  {
    match FormatStep(expression, from)
    case Err(error) => Err(error)
    case Ok(None) => Ok(expression)
    case Ok(Some((next, search))) => UnwrappedFormat(next, search)
  }

  /**
   The loop only deletes characters, and it changes nothing exactly when no
   size call is visible.
   */
  lemma {:induction false} UnwrapFormatMeaning(expression: string, from: nat)
    ensures var result := UnwrappedFormat(expression, from);
            result.Ok? ==> Subsequence(result.value, expression) && |result.value| <= |expression|
    ensures UnwrappedFormat(expression, from) == Ok(expression) <==> FormatFree(Mask(expression), from)
    decreases |expression|
  {
    match FormatStep(expression, from)
    case Err(_) =>
    case Ok(None) =>
      SubsequenceSuffix(expression, 0);
    case Ok(Some((next, search))) =>
      UnwrapFormatMeaning(next, search);
      var result := UnwrappedFormat(next, search);
      if result.Ok? {
        SubsequenceTrans(result.value, next, expression);
      }
  }

  lemma FormatRewriteMatched(expression: string, at: nat, open: nat, close: nat)
    requires at <= open < |expression| && Matches(Mask(expression), open + 1, close)
    ensures FormatRewrite(expression, at, open) ==
            Ok(Some((Splice(expression, at, expression[open + 1..close], close + 1), at + (close - open - 1))))
  {
    MatchUnique(Mask(expression), open + 1, Partner(Mask(expression), open + 1).value, close);
  }

  method RewriteFormatAt(expression: string, mask: string, start: nat, opening: nat)
    returns (step: Result<Option<(string, nat)>, UnwrapError>)
    requires mask == Mask(expression) && start <= opening < |expression|
    ensures step == FormatRewrite(expression, start, opening)
  {
    var closing, depth := ScanClosing(mask, opening + 1);
    if depth != 0 {
      return Err(Unbalanced);
    }
    FormatRewriteMatched(expression, start, opening, closing - 1);
    var inner := expression[opening + 1..closing - 1];
    return Ok(Some((expression[..start] + inner + expression[closing..], start + |inner|)));
  }

  /** The body of the loop in unwrap_format_readable_size. */
  method RewriteFirstFormat(expression: string, searchFrom: nat)
    returns (step: Result<Option<(string, nat)>, UnwrapError>)
    ensures step == FormatStep(expression, searchFrom)
  {
    var mask := SqlMask.SqlMask(expression);
    var start := FirstWord(mask, FORMAT_FUNCTION, searchFrom);
    if start.None? {
      return Ok(None);
    }
    var opening := FirstParenthesis(mask, start.value + |FORMAT_FUNCTION|);
    if opening.None? {
      return Ok(None);
    }
    step := RewriteFormatAt(expression, mask, start.value, opening.value);
  }

  /** unwrap_format_readable_size */
  method UnwrapFormatReadableSize(source: string) returns (result: Result<string, UnwrapError>)
    ensures result == UnwrappedFormat(source, 0)
  {
    var expression, searchFrom := source, 0;
    while true
      invariant UnwrappedFormat(expression, searchFrom) == UnwrappedFormat(source, 0)
      decreases |expression|
    {
      var step := RewriteFirstFormat(expression, searchFrom);
      match step
      case Err(error) => return Err(error);
      case Ok(None) => return Ok(expression);
      case Ok(Some((next, search))) => expression, searchFrom := next, search;
    }
  }
}
