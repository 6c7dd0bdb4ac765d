/**
 Select lists: each `select` token is paired with the first later `from` token
 at the same parenthesis depth, and the text between them is re-masked on its
 own by every later step.
 */
module SqlSpans {
  import opened Prelude
  import opened SqlMask
  import opened SqlSplit
  import opened SqlUnwrap

  datatype Token = Token(word: string, start: nat, end: nat)

  function WordEnd(mask: string, i: nat): (end: nat)
    requires i <= |mask|
    ensures i <= end <= |mask|
    ensures forall k :: i <= k < end ==> IsWord(mask[k])
    ensures end < |mask| ==> !IsWord(mask[end])
    decreases |mask| - i
  {
    if i < |mask| && IsWord(mask[i]) then WordEnd(mask, i + 1) else i
  }

  /** The matches of [A-Za-z_][A-Za-z0-9_]* from offset i on, lower-cased. */
  function Tokens(mask: string, i: nat): (tokens: seq<Token>)
    requires i <= |mask|
    ensures forall a :: 0 <= a < |tokens| ==> i <= tokens[a].start
    ensures Lexed(mask, tokens)
    ensures forall a, b :: 0 <= a < b < |tokens| ==> tokens[a].end <= tokens[b].start
    decreases |mask| - i
  {
    if i == |mask| then []
    else if IsWordStart(mask[i]) then
      var end := WordEnd(mask, i + 1);
      [Token(Lower(mask[i..end]), i, end)] + Tokens(mask, end)
    else Tokens(mask, i + 1)
  }

  predicate IsTokenOf(mask: string, t: Token) {
    && t.start < t.end <= |mask| && t.word == Lower(mask[t.start..t.end])
    && IsWordStart(mask[t.start])
    && (forall k :: t.start <= k < t.end ==> IsWord(mask[k]))
    && (t.end < |mask| ==> !IsWord(mask[t.end]))
  }

  ghost predicate Lexed(mask: string, tokens: seq<Token>) {
    forall a :: 0 <= a < |tokens| ==> IsTokenOf(mask, tokens[a])
  }

  /** Every character that can start a word lies in some token. */
  lemma {:induction false} TokensCover(mask: string, i: nat, k: nat) returns (a: nat)
    requires i <= k < |mask| && IsWordStart(mask[k])
    ensures a < |Tokens(mask, i)| && Tokens(mask, i)[a].start <= k < Tokens(mask, i)[a].end
    decreases |mask| - i
  {
    if IsWordStart(mask[i]) {
      var end := WordEnd(mask, i + 1);
      if k < end {
        a := 0;
      } else {
        a := TokensCover(mask, end, k);
        a := a + 1;
      }
    } else {
      a := TokensCover(mask, i + 1, k);
    }
  }

  /** Is token b a `from` after token a, at the depth where a ends? */
  predicate Closes(mask: string, tokens: seq<Token>, a: int, b: int)
  {
    && 0 <= a < b < |tokens| && tokens[a].end <= |mask| && tokens[b].start <= |mask|
    && tokens[b].word == "from" && Depth(mask, tokens[b].start) == Depth(mask, tokens[a].end)
  }

  /** Token a is a `select` and token b is the first `from` after it at its depth. */
  ghost predicate Pairs(mask: string, tokens: seq<Token>, a: nat, b: nat)
  {
    && a < |tokens| && tokens[a].word == "select" && Closes(mask, tokens, a, b)
    && forall k :: a < k < b ==> !Closes(mask, tokens, a, k)
  }

  ghost predicate IsTokenSpan(mask: string, tokens: seq<Token>, span: (nat, nat)) {
    exists a: nat, b: nat :: b < |tokens| && Pairs(mask, tokens, a, b)
      && span == (tokens[a].end, tokens[b].start)
  }

  /** A span of the statement's select lists. */
  ghost predicate IsSpan(source: string, span: (nat, nat)) {
    IsTokenSpan(Mask(source), Tokens(Mask(source), 0), span)
  }

  /**
   Re-masking a select list in isolation shows the same tokens and parentheses
   as the mask of the whole statement.
   */
  lemma SpanLocality(source: string, span: (nat, nat))
    requires IsSpan(source, span)
    ensures span.0 <= span.1 <= |source|
    ensures CutStart(source, span.0) && CutStart(source, span.1)
    ensures Mask(source[span.0..span.1]) == Mask(source)[span.0..span.1]
    ensures Depth(Mask(source), span.0) == Depth(Mask(source), span.1)
  {
    var mask := Mask(source);
    var tokens := Tokens(mask, 0);
    var a: nat, b: nat :| b < |tokens| && Pairs(mask, tokens, a, b)
      && span == (tokens[a].end, tokens[b].start);
    WordCharIsCut(source, tokens[a].end - 1);
    WordCharIsCut(source, tokens[b].start);
    MaskLocality(source, span.0, span.1);
  }

  lemma WordCharIsCut(source: string, i: nat)
    requires i < |source| && IsWord(Mask(source)[i])
    ensures CutStart(source, i) && CutStart(source, i + 1)
  {
    assert Mask(source)[i] == MaskChar(source, i);
  }

  /** The lowest depth between two offsets. */
  function Lowest(mask: string, from: nat, to: nat): (low: nat)
    requires from <= to <= |mask|
    ensures low <= Depth(mask, to)
    ensures forall i :: from <= i <= to ==> low <= Depth(mask, i)
    ensures exists i :: from <= i <= to && low == Depth(mask, i)
  {
    if from == to then Depth(mask, from)
    else
      var before := Lowest(mask, from, to - 1);
      if Depth(mask, to) < before then Depth(mask, to) else before
  }

  /** A comma at the lowest level reached since `from`. */
  predicate LowestComma(mask: string, from: nat, at: nat)
    requires from <= at < |mask|
  {
    mask[at] == ',' && Depth(mask, at) == Lowest(mask, from, at)
  }

  /** Seen in isolation, the depth inside a slice counts from the lowest level the slice has reached so far. */
  lemma {:induction false} SliceDepth(mask: string, from: nat, to: nat, k: nat)
    requires from <= to <= |mask| && k <= to - from
    ensures Depth(mask[from..to], k) == Depth(mask, from + k) - Lowest(mask, from, from + k)
  {
    if k > 0 {
      SliceDepth(mask, from, to, k - 1);
      assert mask[from..to][k - 1] == mask[from + k - 1];
    }
  }

  /**
   The commas that split a select list are the commas of the statement that lie
   in the span at the lowest level the span has reached before them.
   */
  lemma SpanCommas(source: string, span: (nat, nat), k: nat)
    requires IsSpan(source, span) && k < span.1 - span.0
    ensures span.1 <= |source|
    ensures TopComma(source[span.0..span.1], k) <==> LowestComma(Mask(source), span.0, span.0 + k)
  {
    SpanLocality(source, span);
    LocalCommas(source, span.0, span.1, k);
  }

  lemma LocalCommas(source: string, from: nat, to: nat, k: nat)
    requires from <= to <= |source| && Mask(source[from..to]) == Mask(source)[from..to] && k < to - from
    ensures TopComma(source[from..to], k) <==> LowestComma(Mask(source), from, from + k)
  {
    var mask, part := Mask(source), source[from..to];
    SliceComma(mask, from, to, k);
    assert TopComma(part, k) <==> Mask(part)[k] == ',' && Depth(Mask(part), k) == 0;
  }

  lemma {:induction false} SliceComma(mask: string, from: nat, to: nat, k: nat)
    requires from <= to <= |mask| && k < to - from
    ensures mask[from..to][k] == mask[from + k]
    ensures Depth(mask[from..to], k) == 0 <==> Depth(mask, from + k) == Lowest(mask, from, from + k)
  {
    SliceDepth(mask, from, to, k);
  }

  /** A span that has not climbed out of its level splits at the commas of its own depth. */
  lemma {:induction false} SpanOwnCommas(source: string, span: (nat, nat), k: nat)
    requires IsSpan(source, span) && k < span.1 - span.0
    requires forall i :: span.0 <= i <= span.0 + k < |source| ==>
               Depth(Mask(source), i) >= Depth(Mask(source), span.0)
    ensures span.1 <= |source|
    ensures TopComma(source[span.0..span.1], k) <==>
              Mask(source)[span.0 + k] == ',' && Depth(Mask(source), span.0 + k) == Depth(Mask(source), span.0)
  {
    SpanLocality(source, span);
    SpanCommas(source, span, k);
    var low := Lowest(Mask(source), span.0, span.0 + k);
    assert low <= Depth(Mask(source), span.0);
  }

  /** The token scan of WORD_RE.finditer. */
  method ScanTokens(mask: string) returns (tokens: seq<Token>)
    ensures tokens == Tokens(mask, 0)
  {
    tokens := [];
    var i := 0;
    while i < |mask|
      invariant i <= |mask| && tokens + Tokens(mask, i) == Tokens(mask, 0)
      decreases |mask| - i
    {
      if IsWordStart(mask[i]) {
        var end := WordEnd(mask, i + 1);
        tokens := tokens + [Token(Lower(mask[i..end]), i, end)];
        i := end;
      } else {
        i := i + 1;
      }
    }
  }

  /** The depth table; its last entry stays zero. */
  method ScanDepths(mask: string) returns (depths: array<nat>)
    ensures fresh(depths) && depths.Length == |mask| + 1
    ensures forall i :: 0 <= i < |mask| ==> depths[i] == Depth(mask, i)
    ensures depths[|mask|] == 0
  {
    depths := new nat[|mask| + 1](i => 0);
    var depth := 0;
    for index := 0 to |mask|
      invariant depth == Depth(mask, index)
      invariant forall i {:trigger depths[i]} :: 0 <= i < index ==> depths[i] == Depth(mask, i)
      invariant depths[|mask|] == 0
    {
      depths[index] := depth;
      if mask[index] == '(' {
        depth := depth + 1;
      } else if mask[index] == ')' {
        depth := if depth - 1 > 0 then depth - 1 else 0;
      }
    }
  }

  // ---- pairing each left token with its first partner ----

  /** The first index from b on that is related to a, or n. */
  function FirstMatch(closes: (int, int) -> bool, a: nat, b: nat, n: nat): (found: nat)
    requires b <= n
    ensures b <= found <= n && (found < n ==> closes(a, found))
    ensures forall k :: b <= k < found ==> !closes(a, k)
    decreases n - b
  {
    if b == n || closes(a, b) then b else FirstMatch(closes, a, b + 1, n)
  }

  /** The pairs whose left index is below the limit. */
  function PairList(opens: int -> bool, closes: (int, int) -> bool, n: nat, limit: nat): seq<(nat, nat)>
    requires limit <= n
  {
    if limit == 0 then []
    else
      var a := limit - 1;
      var b := FirstMatch(closes, a, limit, n);
      PairList(opens, closes, n, a) + if opens(a) && b < n then [(a, b)] else []
  }

  lemma {:induction false} PairListMeaning(
      opens: int -> bool, closes: (int, int) -> bool, n: nat, limit: nat, a: nat, b: nat)
    requires limit <= n
    ensures (a, b) in PairList(opens, closes, n, limit) <==>
              a < limit && opens(a) && a < b < n && closes(a, b) && forall k :: a < k < b ==> !closes(a, k)
  {
    if limit > 0 {
      PairListMeaning(opens, closes, n, limit - 1, a, b);
      if a == limit - 1 && a < b < n && closes(a, b) {
        var found := FirstMatch(closes, a, limit, n);
        assert found <= b;
      }
    }
  }

  function IsSelect(tokens: seq<Token>): int -> bool {
    a => 0 <= a < |tokens| && tokens[a].word == "select"
  }

  function ClosesOf(mask: string, tokens: seq<Token>): (int, int) -> bool {
    (a, b) => Closes(mask, tokens, a, b)
  }

  function TokenPairs(mask: string, tokens: seq<Token>, limit: nat): seq<(nat, nat)>
    requires limit <= |tokens|
  {
    PairList(IsSelect(tokens), ClosesOf(mask, tokens), |tokens|, limit)
  }

  lemma TokenPairsMeaning(mask: string, tokens: seq<Token>, a: nat, b: nat)
    ensures (a, b) in TokenPairs(mask, tokens, |tokens|) <==> Pairs(mask, tokens, a, b)
  {
    PairListMeaning(IsSelect(tokens), ClosesOf(mask, tokens), |tokens|, |tokens|, a, b);
    assert forall k :: ClosesOf(mask, tokens)(a, k) == Closes(mask, tokens, a, k);
  }

  /** The inner loop: the first `from` after the select token, at its depth. */
  method FindFrom(mask: string, tokens: seq<Token>, depths: array<nat>, a: nat) returns (b: nat)
    requires tokens == Tokens(mask, 0) && a < |tokens|
    requires depths.Length == |mask| + 1
    requires forall i :: 0 <= i < |mask| ==> depths[i] == Depth(mask, i)
    ensures b == FirstMatch(ClosesOf(mask, tokens), a, a + 1, |tokens|)
  {
    var targetDepth := depths[tokens[a].end];
    b := a + 1;
    while b < |tokens|
      invariant a < b <= |tokens|
      invariant FirstMatch(ClosesOf(mask, tokens), a, b, |tokens|)
             == FirstMatch(ClosesOf(mask, tokens), a, a + 1, |tokens|)
    {
      assert IsTokenOf(mask, tokens[b]) && tokens[a].end <= tokens[b].start;
      if tokens[b].word == "from" && depths[tokens[b].start] == targetDepth {
        return;
      }
      b := b + 1;
    }
  }

  function SpanAt(tokens: seq<Token>, pair: (nat, nat)): (nat, nat) {
    if pair.0 < |tokens| && pair.1 < |tokens| then (tokens[pair.0].end, tokens[pair.1].start) else (0, 0)
  }

  function SpansOfPairs(tokens: seq<Token>, pairs: seq<(nat, nat)>): (spans: seq<(nat, nat)>)
    ensures |spans| == |pairs|
    ensures forall i :: 0 <= i < |pairs| ==> spans[i] == SpanAt(tokens, pairs[i])
  {
    seq(|pairs|, i requires 0 <= i < |pairs| => SpanAt(tokens, pairs[i]))
  }

  lemma SpansOfPairsMeaning(mask: string, tokens: seq<Token>, span: (nat, nat))
    ensures span in SpansOfPairs(tokens, TokenPairs(mask, tokens, |tokens|)) <==> IsTokenSpan(mask, tokens, span)
  {
    var pairs := TokenPairs(mask, tokens, |tokens|);
    var spans := SpansOfPairs(tokens, pairs);
    if span in spans {
      var i :| 0 <= i < |spans| && spans[i] == span;
      assert pairs[i] in pairs && pairs[i] == (pairs[i].0, pairs[i].1);
      TokenPairsMeaning(mask, tokens, pairs[i].0, pairs[i].1);
    }
    if IsTokenSpan(mask, tokens, span) {
      var a: nat, b: nat :| b < |tokens| && Pairs(mask, tokens, a, b)
        && span == (tokens[a].end, tokens[b].start);
      TokenPairsMeaning(mask, tokens, a, b);
      var i :| 0 <= i < |pairs| && pairs[i] == (a, b);
      assert spans[i] == span;
    }
  }

  /** The left indices ascend below the limit. */
  ghost predicate LeftAscends(pairs: seq<(nat, nat)>, limit: nat, n: nat) {
    && (forall i :: 0 <= i < |pairs| ==> pairs[i].0 < limit && pairs[i].1 < n)
    && (forall i, j :: 0 <= i < j < |pairs| ==> pairs[i].0 < pairs[j].0)
  }

  lemma LeftAscendsStep(pairs: seq<(nat, nat)>, a: nat, b: nat, n: nat)
    requires LeftAscends(pairs, a, n) && b < n
    ensures LeftAscends(pairs, a + 1, n) && LeftAscends(pairs + [(a, b)], a + 1, n)
  {
  }

  lemma {:induction false} PairListAscends(opens: int -> bool, closes: (int, int) -> bool, n: nat, limit: nat)
    requires limit <= n
    ensures LeftAscends(PairList(opens, closes, n, limit), limit, n)
  {
    if limit > 0 {
      var before, b := PairList(opens, closes, n, limit - 1), FirstMatch(closes, limit - 1, limit, n);
      PairListAscends(opens, closes, n, limit - 1);
      if opens(limit - 1) && b < n {
        LeftAscendsStep(before, limit - 1, b, n);
        assert PairList(opens, closes, n, limit) == before + [(limit - 1, b)];
      } else {
        assert PairList(opens, closes, n, limit) == before;
      }
    }
  }

  /** The spans come in the order of their select tokens, each of them once. */
  lemma {:induction false} SpansAscend(mask: string)
    ensures var tokens := Tokens(mask, 0);
            var spans := SpansOfPairs(tokens, TokenPairs(mask, tokens, |tokens|));
            forall i, j :: 0 <= i < j < |spans| ==> spans[i].0 < spans[j].0
  {
    var tokens := Tokens(mask, 0);
    var pairs := TokenPairs(mask, tokens, |tokens|);
    PairListAscends(IsSelect(tokens), ClosesOf(mask, tokens), |tokens|, |tokens|);
    forall i, j | 0 <= i < j < |pairs|
      ensures SpanAt(tokens, pairs[i]).0 < SpanAt(tokens, pairs[j]).0
    {
      assert pairs[i].0 < pairs[j].0 < |tokens|;
      assert IsTokenOf(mask, tokens[pairs[j].0]);
    }
  }

  /** The spans of the `select` tokens before the limit. */
  function SpansBefore(mask: string, tokens: seq<Token>, limit: nat): seq<(nat, nat)>
    requires limit <= |tokens|
  {
    SpansOfPairs(tokens, TokenPairs(mask, tokens, limit))
  }

  lemma SpansBeforeStep(mask: string, tokens: seq<Token>, a: nat, b: nat)
    requires a < |tokens| && b == FirstMatch(ClosesOf(mask, tokens), a, a + 1, |tokens|)
    ensures SpansBefore(mask, tokens, a + 1) == SpansBefore(mask, tokens, a)
              + if tokens[a].word == "select" && b < |tokens| then [(tokens[a].end, tokens[b].start)] else []
  {
    var pairs := TokenPairs(mask, tokens, a);
    assert TokenPairs(mask, tokens, a + 1) ==
           pairs + if tokens[a].word == "select" && b < |tokens| then [(a, b)] else [];
  }

  method PairTokens(mask: string, tokens: seq<Token>, depths: array<nat>) returns (spans: seq<(nat, nat)>)
    requires tokens == Tokens(mask, 0) && depths.Length == |mask| + 1
    requires forall i :: 0 <= i < |mask| ==> depths[i] == Depth(mask, i)
    ensures spans == SpansBefore(mask, tokens, |tokens|)
  {
    spans := [];
    for a := 0 to |tokens|
      invariant spans == SpansBefore(mask, tokens, a)
    {
      var b := FindFrom(mask, tokens, depths, a);
      SpansBeforeStep(mask, tokens, a, b);
      if tokens[a].word == "select" && b < |tokens| {
        spans := spans + [(tokens[a].end, tokens[b].start)];
      }
    }
  }

  /** select_spans */
  method SelectSpans(source: string) returns (spans: seq<(nat, nat)>)
    ensures var tokens := Tokens(Mask(source), 0);
            spans == SpansOfPairs(tokens, TokenPairs(Mask(source), tokens, |tokens|))
    ensures forall span :: span in spans <==> IsSpan(source, span)
    ensures forall i, j :: 0 <= i < j < |spans| ==> spans[i].0 < spans[j].0
  {
    var mask := SqlMask.SqlMask(source);
    var tokens := ScanTokens(mask);
    var depths := ScanDepths(mask);
    spans := PairTokens(mask, tokens, depths);
    SpansAscend(mask);
    forall span
      ensures span in spans <==> IsSpan(source, span)
    {
      SpansOfPairsMeaning(mask, tokens, span);
    }
  }
}
