/**
 What the parenthesis depth counts, said with the positions of the parentheses,
 and what that means for the commas that split a select list and for the `from`
 that closes one.
 */
module SqlDepth {
  import opened SqlMask
  import opened SqlSplit
  import opened SqlUnwrap
  import opened SqlSpans

  /** The opening parentheses in mask[from..to]. */
  function Opening(mask: string, from: nat, to: nat): set<nat>
    requires to <= |mask|
  {
    set k | from <= k < to && mask[k] == '('
  }

  function Closing(mask: string, from: nat, to: nat): set<nat>
    requires to <= |mask|
  {
    set k | from <= k < to && mask[k] == ')'
  }

  lemma OpeningStep(mask: string, from: nat, to: nat)
    requires from < to <= |mask|
    ensures |Opening(mask, from, to)| == |Opening(mask, from, to - 1)| + if mask[to - 1] == '(' then 1 else 0
  {
    if mask[to - 1] == '(' {
      assert Opening(mask, from, to) == Opening(mask, from, to - 1) + {to - 1};
    } else {
      assert Opening(mask, from, to) == Opening(mask, from, to - 1);
    }
  }

  lemma ClosingStep(mask: string, from: nat, to: nat)
    requires from < to <= |mask|
    ensures |Closing(mask, from, to)| == |Closing(mask, from, to - 1)| + if mask[to - 1] == ')' then 1 else 0
  {
    if mask[to - 1] == ')' {
      assert Closing(mask, from, to) == Closing(mask, from, to - 1) + {to - 1};
    } else {
      assert Closing(mask, from, to) == Closing(mask, from, to - 1);
    }
  }

  /** The net count is the number of opening less the number of closing parentheses. */
  lemma {:induction false} NetCounts(mask: string, from: nat, to: nat)
    requires from <= to <= |mask|
    ensures Net(mask, from, to) == |Opening(mask, from, to)| - |Closing(mask, from, to)|
  {
    if from < to {
      NetCounts(mask, from, to - 1);
      OpeningStep(mask, from, to);
      ClosingStep(mask, from, to);
    } else {
      assert Opening(mask, from, to) == {} && Closing(mask, from, to) == {};
    }
  }

  lemma {:induction false} NetAdd(mask: string, a: nat, b: nat, c: nat)
    requires a <= b <= c <= |mask|
    ensures Net(mask, a, c) == Net(mask, a, b) + Net(mask, b, c)
  {
    if b < c {
      NetAdd(mask, a, b, c - 1);
    }
  }

  /** The depth is the greatest net count of a stretch that ends there. */
  lemma {:induction false} DepthIsGreatest(mask: string, i: nat) returns (from: nat)
    requires i <= |mask|
    ensures forall j :: 0 <= j <= i ==> Net(mask, j, i) <= Depth(mask, i)
    ensures from <= i && Net(mask, from, i) == Depth(mask, i)
  {
    if i == 0 {
      from := 0;
    } else {
      from := DepthIsGreatest(mask, i - 1);
      forall j | 0 <= j < i
        ensures Net(mask, j, i) <= Depth(mask, i)
      {
        assert Net(mask, j, i - 1) <= Depth(mask, i - 1);
      }
      if mask[i - 1] == ')' && Depth(mask, i - 1) == 0 {
        from := i;
      }
    }
  }

  /** The opening parentheses before i less the closing ones. */
  function Excess(mask: string, i: nat): int
    requires i <= |mask|
  {
    |Opening(mask, 0, i)| - |Closing(mask, 0, i)|
  }

  /** The depth is the excess, less the least excess of any prefix. */
  lemma DepthIsExcess(mask: string, i: nat) returns (low: nat)
    requires i <= |mask|
    ensures low <= i && Depth(mask, i) == Excess(mask, i) - Excess(mask, low)
    ensures forall j :: 0 <= j <= i ==> Excess(mask, low) <= Excess(mask, j)
  {
    low := DepthIsGreatest(mask, i);
    ExcessIsNet(mask, i, low);
    forall j | 0 <= j <= i
      ensures Excess(mask, low) <= Excess(mask, j)
    {
      ExcessIsNet(mask, i, j);
      assert Net(mask, j, i) <= Depth(mask, i);
    }
  }

  lemma {:induction false} ExcessIsNet(mask: string, i: nat, j: nat)
    requires j <= i <= |mask|
    ensures Net(mask, j, i) == Excess(mask, i) - Excess(mask, j)
  {
    NetAdd(mask, 0, j, i);
    NetCounts(mask, 0, i);
    NetCounts(mask, 0, j);
  }

  /** Where no prefix closes more than it opens, the depth is the number of opening less that of closing ones. */
  lemma {:induction false} DepthCounts(mask: string, i: nat)
    requires i <= |mask|
    requires forall j :: 0 <= j <= i ==> |Closing(mask, 0, j)| <= |Opening(mask, 0, j)|
    ensures Depth(mask, i) == |Opening(mask, 0, i)| - |Closing(mask, 0, i)|
  {
    var low := DepthIsExcess(mask, i);
    assert |Closing(mask, 0, low)| <= |Opening(mask, 0, low)|;
    assert Excess(mask, low) <= Excess(mask, 0) && Opening(mask, 0, 0) == {} && Closing(mask, 0, 0) == {};
  }

  // ---- open parentheses ----

  /** A parenthesis and its partner. */
  ghost predicate Pair(mask: string, open: nat, close: nat) {
    open < |mask| && mask[open] == '(' && Matches(mask, open + 1, close)
  }

  /** The parenthesis opened at `open` is closed before k. */
  ghost predicate Closed(mask: string, open: nat, k: nat) {
    exists close: nat :: close < k && Pair(mask, open, close)
  }

  /** No stretch from `from` up to k closes more than it opens. */
  predicate NeverBelow(mask: string, from: nat, k: nat)
    requires from <= k <= |mask|
  {
    forall j :: from <= j <= k ==> Net(mask, from, j) >= 0
  }

  lemma {:induction false} ClosedOrNot(mask: string, open: nat, k: nat)
    requires open < k <= |mask| && mask[open] == '('
    ensures Closed(mask, open, k) <==> !NeverBelow(mask, open + 1, k)
  {
    var from := open + 1;
    if Closed(mask, open, k) {
      var close: nat :| close < k && Pair(mask, open, close);
      assert Net(mask, from, close + 1) == -1;
    }
    if j :| from <= j <= k && Net(mask, from, j) < 0 {
      FirstDrop(mask, from, j);
      var close: nat :| close < j && Matches(mask, from, close);
      assert Pair(mask, open, close);
    }
  }

  lemma {:induction false} FirstDrop(mask: string, from: nat, k: nat)
    requires from <= k <= |mask| && Net(mask, from, k) < 0
    ensures exists close: nat :: close < k && Matches(mask, from, close)
  {
    if j :| from <= j < k && Net(mask, from, j) < 0 {
      FirstDrop(mask, from, j);
    } else {
      assert Net(mask, from, k - 1) >= 0;
      assert Matches(mask, from, k - 1);
    }
  }

  /** A stretch with a positive count opens a parenthesis that is still open at its end. */
  lemma {:induction false} StillOpen(mask: string, from: nat, k: nat) returns (open: nat)
    requires from <= k <= |mask| && Net(mask, from, k) > 0
    ensures from <= open < k && mask[open] == '(' && !Closed(mask, open, k)
    decreases k - from
  {
    if j :| from < j <= k && Net(mask, j, k) > 0 {
      open := StillOpen(mask, j, k);
    } else {
      open := from;
      NetAdd(mask, from, from + 1, k);
      assert Net(mask, from, from) == 0;
      var second := from + 1;
      forall j | second <= j <= k
        ensures Net(mask, second, j) >= 0
      {
        NetAdd(mask, second, j, k);
      }
      ClosedOrNot(mask, open, k);
    }
  }

  lemma {:induction false} StillOpenCounts(mask: string, open: nat, k: nat)
    requires open < k <= |mask| && mask[open] == '(' && !Closed(mask, open, k)
    ensures Net(mask, open, k) > 0
  {
    ClosedOrNot(mask, open, k);
    NetAdd(mask, open, open + 1, k);
    assert Net(mask, open, open + 1) == Net(mask, open, open) + 1;
  }

  /** An open parenthesis lifts the depth above that of its own place. */
  lemma {:induction false} OpenLifts(mask: string, open: nat, k: nat)
    requires open < k <= |mask| && mask[open] == '(' && !Closed(mask, open, k)
    ensures Depth(mask, k) > 0
  {
    StillOpenCounts(mask, open, k);
    var _ := DepthIsGreatest(mask, k);
    assert Net(mask, open, k) <= Depth(mask, k);
  }

  /** The depth is zero exactly where every parenthesis opened before is closed before. */
  lemma {:induction false} DepthZeroExactly(mask: string, k: nat)
    requires k <= |mask|
    ensures Depth(mask, k) == 0 <==> forall open :: 0 <= open < k && mask[open] == '(' ==> Closed(mask, open, k)
  {
    if open :| 0 <= open < k && mask[open] == '(' && !Closed(mask, open, k) {
      OpenLifts(mask, open, k);
    } else if Depth(mask, k) > 0 {
      var from := DepthIsGreatest(mask, k);
      var open := StillOpen(mask, from, k);
    }
  }

  // ---- commas ----

  /** A comma splits exactly when it is visible and every parenthesis before it is closed before it. */
  lemma TopCommaExactly(text: string, k: nat)
    requires k < |text|
    ensures TopComma(text, k) <==>
              && Mask(text)[k] == ','
              && forall open :: 0 <= open < k && Mask(text)[open] == '(' ==> Closed(Mask(text), open, k)
  {
    DepthZeroExactly(Mask(text), k);
  }

  /** A comma between a parenthesis and its partner does not split. */
  lemma CommaInPair(text: string, open: nat, k: nat, close: nat)
    requires open < k < close < |text| && Pair(Mask(text), open, close)
    ensures !TopComma(text, k)
  {
    if Closed(Mask(text), open, k) {
      var early: nat :| early < k && Pair(Mask(text), open, early);
      MatchUnique(Mask(text), open + 1, early, close);
    }
    TopCommaExactly(text, k);
  }

  /** Where every parenthesis has a partner, a visible comma outside all pairs splits. */
  lemma CommaOutsidePairs(text: string, k: nat)
    requires k < |text| && Mask(text)[k] == ','
    requires forall open: nat :: open < k && Mask(text)[open] == '(' ==> Closed(Mask(text), open, |text|)
    requires forall open: nat, close: nat :: open < k < close ==> !Pair(Mask(text), open, close)
    ensures TopComma(text, k)
  {
    var mask := Mask(text);
    forall open: nat | open < k && mask[open] == '('
      ensures Closed(mask, open, k)
    {
      var close: nat :| close < |text| && Pair(mask, open, close);
      assert mask[close] == ')' && !(k < close) && close != k;
    }
    TopCommaExactly(text, k);
  }

  // ---- the from of a select ----

  /** Where a stretch never leaves the level it starts on, it changes the depth by its net count. */
  lemma {:induction false} DepthOnLevel(mask: string, from: nat, to: nat)
    requires from <= to <= |mask| && NeverBelow(mask, from, to)
    ensures Depth(mask, to) == Depth(mask, from) + Net(mask, from, to)
  {
    var start := DepthIsGreatest(mask, from);
    NetAdd(mask, start, from, to);
    var best := DepthIsGreatest(mask, to);
    if best <= from {
      NetAdd(mask, best, from, to);
    } else {
      NetAdd(mask, from, best, to);
    }
    assert Net(mask, start, to) <= Depth(mask, to);
  }

  lemma {:induction false} NothingOpen(mask: string, from: nat, to: nat)
    requires from <= to <= |mask| && NeverBelow(mask, from, to)
    ensures Net(mask, from, to) == 0 <==>
              forall open: nat :: from <= open < to && mask[open] == '(' ==> Closed(mask, open, to)
  {
    if Net(mask, from, to) > 0 {
      var open := StillOpen(mask, from, to);
    } else if open: nat :| from <= open < to && mask[open] == '(' && !Closed(mask, open, to) {
      StillOpenCounts(mask, open, to);
      NetAdd(mask, from, open, to);
    }
  }

  /**
   While the level of the select is not left, a `from` closes it exactly when
   every parenthesis opened in between is closed in between.
   */
  lemma FromOnLevel(mask: string, tokens: seq<Token>, a: nat, b: nat)
    requires a < b < |tokens| && tokens[b].word == "from"
    requires tokens[a].end <= tokens[b].start <= |mask| && NeverBelow(mask, tokens[a].end, tokens[b].start)
    ensures Closes(mask, tokens, a, b) <==>
              forall open: nat :: tokens[a].end <= open < tokens[b].start && mask[open] == '(' ==>
                Closed(mask, open, tokens[b].start)
  {
    DepthOnLevel(mask, tokens[a].end, tokens[b].start);
    NothingOpen(mask, tokens[a].end, tokens[b].start);
  }

  /**
   A `from` inside a parenthesised part that starts behind the select closes it
   only if the level of the select was left before that part.
   */
  lemma FromInSubquery(mask: string, tokens: seq<Token>, a: nat, b: nat, open: nat)
    requires a < b < |tokens| && tokens[a].end <= open < tokens[b].start <= |mask|
    requires mask[open] == '(' && !Closed(mask, open, tokens[b].start)
    requires NeverBelow(mask, tokens[a].end, open)
    ensures !Closes(mask, tokens, a, b)
  {
    var from, to := tokens[a].end, tokens[b].start;
    ClosedOrNot(mask, open, to);
    NetAdd(mask, from, open, to);
    NetAdd(mask, open, open + 1, to);
    assert Net(mask, open, open + 1) == Net(mask, open, open) + 1;
    forall j | from <= j <= to
      ensures Net(mask, from, j) >= 0
    {
      if open < j {
        NetAdd(mask, from, open, j);
        NetAdd(mask, open, open + 1, j);
      }
    }
    DepthOnLevel(mask, from, to);
  }

  /** Behind a level that was left, a parenthesised part can be as deep as the select was. */
  lemma LeftLevelMatches()
    ensures var mask := "(a)(b";
            Depth(mask, 2) == 1 && Depth(mask, 5) == 1 && mask[3] == '(' && !Closed(mask, 3, 5)
  {
    var mask := "(a)(b";
    assert Depth(mask, 1) == 1 && Depth(mask, 3) == 0 && Depth(mask, 4) == 1;
    ClosedOrNot(mask, 3, 5);
    assert Net(mask, 4, 4) == 0;
  }
}
