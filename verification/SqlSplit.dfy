/**
 Splitting a select list at its top-level commas.

 `Split` is defined from the commas the mask shows at parenthesis depth zero.
 Joining gives the text back, and every piece, masked again on its own, has no
 top-level comma left: the pieces are the finest such division.
 */
module SqlSplit {
  import opened SqlMask

  /** Parenthesis depth before offset i; a stray closing parenthesis is ignored. */
  function Depth(mask: string, i: nat): nat
    requires i <= |mask|
  {
    if i == 0 then 0
    else
      var before := Depth(mask, i - 1);
      if mask[i - 1] == '(' then before + 1
      else if mask[i - 1] == ')' && before > 0 then before - 1
      else before
  }

  predicate TopComma(text: string, i: nat)
    requires i < |text|
  {
    Mask(text)[i] == ',' && Depth(Mask(text), i) == 0
  }

  function SplitFrom(text: string, start: nat, i: nat): (pieces: seq<string>)
    requires start <= i <= |text|
    ensures |pieces| > 0
    decreases |text| - i
  {
    if i == |text| then [text[start..]]
    else if TopComma(text, i) then [text[start..i]] + SplitFrom(text, i + 1, i + 1)
    else SplitFrom(text, start, i + 1)
  }

  function Split(text: string): seq<string> {
    SplitFrom(text, 0, 0)
  }

  /** ",".join(pieces) */
  function Join(pieces: seq<string>): string
    requires |pieces| > 0
  {
    if |pieces| == 1 then pieces[0] else pieces[0] + "," + Join(pieces[1..])
  }

  lemma {:induction false} JoinSplitFrom(text: string, start: nat, i: nat)
    requires start <= i <= |text|
    ensures Join(SplitFrom(text, start, i)) == text[start..]
    decreases |text| - i
  {
    if i == |text| {
    } else if TopComma(text, i) {
      JoinSplitFrom(text, i + 1, i + 1);
      assert Mask(text)[i] == MaskChar(text, i);
      assert text[start..] == text[start..i] + "," + text[i + 1..];
    } else {
      JoinSplitFrom(text, start, i + 1);
    }
  }

  /** Splitting loses nothing: joining the pieces with commas gives the text back. */
  lemma JoinSplit(text: string)
    ensures Join(Split(text)) == text
  {
    JoinSplitFrom(text, 0, 0);
  }

  predicate Atomic(text: string) {
    forall i :: 0 <= i < |text| ==> !TopComma(text, i)
  }

  lemma {:induction false} DepthLocal(text: string, start: nat, end: nat, k: nat)
    requires start <= end && CutStart(text, start) && CutEnd(text, end)
    requires Depth(Mask(text), start) == 0 && k <= end - start
    ensures Depth(Mask(text[start..end]), k) == Depth(Mask(text), start + k)
  {
    MaskLocality(text, start, end);
    if k > 0 {
      DepthLocal(text, start, end, k - 1);
    }
  }

  lemma {:induction false} PieceIsAtomic(text: string, start: nat, end: nat)
    requires start <= end && CutStart(text, start) && CutEnd(text, end)
    requires Depth(Mask(text), start) == 0
    requires forall i :: start <= i < end ==> !TopComma(text, i)
    ensures Atomic(text[start..end])
  {
    var piece := text[start..end];
    MaskLocality(text, start, end);
    forall k | 0 <= k < |piece|
      ensures !TopComma(piece, k)
    {
      DepthLocal(text, start, end, k);
      assert !TopComma(text, start + k);
    }
  }

  lemma {:induction false} SplitFromAtomic(text: string, start: nat, i: nat)
    requires start <= i <= |text| && CutStart(text, start) && Depth(Mask(text), start) == 0
    requires forall j :: start <= j < i ==> !TopComma(text, j)
    ensures forall piece :: piece in SplitFrom(text, start, i) ==> Atomic(piece)
    decreases |text| - i
  {
    if i == |text| {
      PieceIsAtomic(text, start, i);
      assert text[start..] == text[start..i];
    } else if TopComma(text, i) {
      VisibleIsCut(text, i);
      PieceIsAtomic(text, start, i);
      SplitFromAtomic(text, i + 1, i + 1);
    } else {
      SplitFromAtomic(text, start, i + 1);
    }
  }

  lemma {:induction false} AtomicSplit(text: string, i: nat)
    requires i <= |text| && forall j :: i <= j < |text| ==> !TopComma(text, j)
    ensures SplitFrom(text, 0, i) == [text]
    decreases |text| - i
  {
    if i < |text| {
      AtomicSplit(text, i + 1);
    }
  }

  /** Every piece is whole: splitting it again, on its own, changes nothing. */
  lemma SplitPiecesWhole(text: string)
    ensures forall piece :: piece in Split(text) ==> Split(piece) == [piece]
  {
    SplitFromAtomic(text, 0, 0);
    forall piece | piece in Split(text)
      ensures Split(piece) == [piece]
    {
      AtomicSplit(piece, 0);
    }
  }

  /** The top-level commas at or after offset i. */
  function TopCommas(text: string, i: nat): (commas: set<nat>)
    requires i <= |text|
  {
    set j | i <= j < |text| && TopComma(text, j)
  }

  lemma TopCommasStep(text: string, i: nat)
    requires i < |text|
    ensures |TopCommas(text, i)| == |TopCommas(text, i + 1)| + if TopComma(text, i) then 1 else 0
  {
    if TopComma(text, i) {
      TopCommasAt(text, i);
    } else {
      TopCommasPast(text, i);
    }
  }

  lemma TopCommasAt(text: string, i: nat)
    requires i < |text| && TopComma(text, i)
    ensures TopCommas(text, i) == TopCommas(text, i + 1) + {i}
    ensures i !in TopCommas(text, i + 1)
  {
  }

  lemma TopCommasPast(text: string, i: nat)
    requires i < |text| && !TopComma(text, i)
    ensures TopCommas(text, i) == TopCommas(text, i + 1)
  {
  }

  lemma {:induction false} SplitFromCount(text: string, start: nat, i: nat)
    requires start <= i <= |text|
    ensures |SplitFrom(text, start, i)| == 1 + |TopCommas(text, i)|
    decreases |text| - i
  {
    if i == |text| {
      assert TopCommas(text, i) == {};
    } else if TopComma(text, i) {
      SplitFromCount(text, i + 1, i + 1);
      TopCommasStep(text, i);
    } else {
      SplitFromCount(text, start, i + 1);
      TopCommasStep(text, i);
    }
  }

  /** There is one cut at each top-level comma and none elsewhere. */
  lemma SplitCount(text: string)
    ensures |Split(text)| == 1 + |TopCommas(text, 0)|
  {
    SplitFromCount(text, 0, 0);
  }

  /** split_expressions */
  method SplitExpressions(selectList: string) returns (expressions: seq<string>)
    ensures expressions == Split(selectList)
  {
    var mask := SqlMask.SqlMask(selectList);
    var depth := 0;
    var start := 0;
    expressions := [];
    for index := 0 to |mask|
      invariant 0 <= start <= index
      invariant depth == Depth(mask, index)
      invariant expressions + SplitFrom(selectList, start, index) == Split(selectList)
    {
      if mask[index] == '(' {
        depth := depth + 1;
      } else if mask[index] == ')' {
        depth := if depth - 1 > 0 then depth - 1 else 0;
      } else if mask[index] == ',' && depth == 0 {
        expressions := expressions + [selectList[start..index]];
        start := index + 1;
      }
    }
    expressions := expressions + [selectList[start..]];
  }
}
