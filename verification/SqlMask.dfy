/**
 The lexer of the SQL normaliser: it blanks strings, quoted identifiers and
 comments and keeps every offset.

 The reference is a one-character automaton, `ModeAt`, which says for each
 offset what the lexer is inside of.  The method jumps over whole comments as
 the tool does and is proved equal to the reference.
 */
module SqlMask {

  /** What surrounds the character at an offset, before it is read. */
  datatype Mode =
    | Code
    | Quoted(quote: char)    // inside '...', "..." or `...`
    | Doubled(quote: char)   // at the second of two quotes that stand for one
    | Line                   // inside a -- comment
    | BlockStar              // at the * that opens a block comment
    | Block                  // inside a block comment
    | BlockSlash             // at the / that closes a block comment

  predicate IsQuote(c: char) {
    c == '\'' || c == '"' || c == '`'
  }

  /** Do the characters c, d stand at offset i? */
  predicate PairAt(src: string, i: nat, c: char, d: char) {
    i + 1 < |src| && src[i] == c && src[i + 1] == d
  }

  predicate OpensComment(src: string, i: nat) {
    PairAt(src, i, '-', '-') || PairAt(src, i, '/', '*')
  }

  /** The mode after reading src[i], with one character of lookahead. */
  function Next(mode: Mode, src: string, i: nat): Mode
    requires i < |src|
  {
    match mode
    case Code =>
      if PairAt(src, i, '-', '-') then Line
      else if PairAt(src, i, '/', '*') then BlockStar
      else if IsQuote(src[i]) then Quoted(src[i])
      else Code
    case Quoted(q) =>
      if PairAt(src, i, q, q) then Doubled(q)
      else if src[i] == q then Code
      else mode
    case Doubled(q) => Quoted(q)
    case Line => if i + 1 < |src| && src[i + 1] == '\n' then Code else Line
    case BlockStar => Block
    case Block => if PairAt(src, i, '*', '/') then BlockSlash else Block
    case BlockSlash => Code
  }

  function ModeAt(src: string, i: nat): Mode
    requires i <= |src|
  {
    if i == 0 then Code else Next(ModeAt(src, i - 1), src, i - 1)
  }

  /** Is src[i] visible in the mask? */
  predicate Kept(src: string, i: nat)
    requires i < |src|
  {
    src[i] == '\n' || (ModeAt(src, i) == Code && !OpensComment(src, i) && !IsQuote(src[i]))
  }

  function MaskChar(src: string, i: nat): char
    requires i < |src|
  {
    if Kept(src, i) then src[i] else ' '
  }

  function Mask(src: string): (mask: string)
    ensures |mask| == |src|
    ensures forall i :: 0 <= i < |src| ==> mask[i] == MaskChar(src, i)
  {
    seq(|src|, i requires 0 <= i < |src| => MaskChar(src, i))
  }

  // ---- what the mask keeps and removes ----

  /** Only the three quote characters ever open a quoted mode. */
  lemma {:induction false} QuoteOfMode(src: string, i: nat)
    requires i <= |src|
    ensures ModeAt(src, i).Quoted? || ModeAt(src, i).Doubled? ==> IsQuote(ModeAt(src, i).quote)
  {
    if i > 0 {
      QuoteOfMode(src, i - 1);
    }
  }

  /** No quote and no comment opener survives masking. */
  predicate Clean(text: string) {
    forall i {:trigger text[i]} :: 0 <= i < |text| ==> !IsQuote(text[i]) && !OpensComment(text, i)
  }

  lemma MaskShape(src: string)
    ensures |Mask(src)| == |src|
    ensures forall i :: 0 <= i < |src| ==> Mask(src)[i] == src[i] || Mask(src)[i] == ' '
    ensures forall i :: 0 <= i < |src| ==> (Mask(src)[i] == '\n' <==> src[i] == '\n')
    ensures Clean(Mask(src))
  {
    var mask := Mask(src);
    forall i | 0 <= i < |mask|
      ensures !IsQuote(mask[i]) && !OpensComment(mask, i)
    {
      assert mask[i] == MaskChar(src, i);
      if i + 1 < |src| {
        assert mask[i + 1] == MaskChar(src, i + 1);
      }
    }
  }

  lemma {:induction false} CleanIsAllCode(src: string, i: nat)
    requires Clean(src) && i <= |src|
    ensures ModeAt(src, i) == Code
  {
    if i > 0 {
      CleanIsAllCode(src, i - 1);
      assert !IsQuote(src[i - 1]) && !OpensComment(src, i - 1);
    }
  }

  /** A text is its own mask exactly when it holds no quote and no comment opener. */
  lemma MaskFixpoint(src: string)
    ensures Mask(src) == src <==> Clean(src)
  {
    if Clean(src) {
      forall i | 0 <= i < |src|
        ensures Mask(src)[i] == src[i]
      {
        CleanIsAllCode(src, i);
      }
    } else {
      MaskShape(src);
    }
  }

  lemma MaskIdempotent(src: string)
    ensures Mask(Mask(src)) == Mask(src)
  {
    MaskShape(src);
    MaskFixpoint(Mask(src));
  }

  // ---- locality ----

  /** An offset at which the lexer stands in plain code; the end of the text always qualifies as an end. */
  predicate CutStart(src: string, i: nat) {
    i <= |src| && ModeAt(src, i) == Code
  }

  predicate CutEnd(src: string, i: nat) {
    i <= |src| && (i == |src| || ModeAt(src, i) == Code)
  }

  lemma {:induction false} ModeLocal(src: string, start: nat, end: nat, k: nat)
    requires start <= end <= |src| && CutStart(src, start)
    requires k < end - start
    ensures ModeAt(src[start..end], k) == ModeAt(src, start + k)
  {
    if k > 0 {
      ModeLocal(src, start, end, k - 1);
      var part := src[start..end];
      assert part[k - 1] == src[start + k - 1] && part[k] == src[start + k];
    }
  }

  /** Masking a slice that starts and ends in code equals slicing the whole mask. */
  lemma MaskLocality(src: string, start: nat, end: nat)
    requires start <= end && CutStart(src, start) && CutEnd(src, end)
    ensures Mask(src[start..end]) == Mask(src)[start..end]
  {
    var part := src[start..end];
    forall k | 0 <= k < end - start
      ensures MaskChar(part, k) == MaskChar(src, start + k)
    {
      ModeLocal(src, start, end, k);
      assert part[k] == src[start + k];
      if k + 1 < end - start {
        assert part[k + 1] == src[start + k + 1];
      } else if end < |src| {
        assert ModeAt(src, end) == Next(ModeAt(src, end - 1), src, end - 1);
      }
    }
  }

  /** A visible character other than a newline is surrounded by code on both sides. */
  lemma VisibleIsCut(src: string, i: nat)
    requires i < |src| && Mask(src)[i] != ' ' && src[i] != '\n'
    ensures Mask(src)[i] == src[i] && CutStart(src, i) && CutStart(src, i + 1)
  {
    assert Mask(src)[i] == MaskChar(src, i);
  }

  /** The mode at the end of a slice that starts and ends in code. */
  lemma {:induction false} EndModeLocal(src: string, start: nat, end: nat)
    requires start <= end && CutStart(src, start) && CutStart(src, end)
    requires end < |src| ==> src[end] != '\n'
    ensures ModeAt(src[start..end], end - start) == Code
  {
    if start < end {
      var part := src[start..end];
      var k := end - start - 1;
      ModeLocal(src, start, end, k);
      assert part[k] == src[end - 1];
      assert ModeAt(src, end) == Next(ModeAt(src, end - 1), src, end - 1);
      assert ModeAt(part, k + 1) == Next(ModeAt(part, k), part, k);
    }
  }

  // ---- joining texts ----

  /** The last visible character of `left` and the first of `right` would open a comment together. */
  predicate Seam(left: string, right: string) {
    |left| > 0 && |right| > 0 && ModeAt(left, |left| - 1) == Code &&
    ((left[|left| - 1] == '-' && right[0] == '-') || (left[|left| - 1] == '/' && right[0] == '*'))
  }

  lemma {:induction false} ModePrefix(left: string, right: string, i: nat)
    requires i < |left|
    ensures ModeAt(left + right, i) == ModeAt(left, i)
  {
    if i > 0 {
      ModePrefix(left, right, i - 1);
    }
  }

  /** The second text keeps its modes after a first one that ends in code, apart from a joined double quote. */
  lemma {:induction false} ModeSuffix(left: string, right: string, k: nat)
    requires ModeAt(left, |left|) == Code && !Seam(left, right) && k < |right|
    ensures ModeAt(left + right, |left| + k) == ModeAt(right, k)
         || (k == 0 && IsQuote(right[0]) && ModeAt(left + right, |left|) == Doubled(right[0]))
         || (k == 0 && right[0] == '\n' && ModeAt(left + right, |left|) == Code)
  {
    var whole := left + right;
    if k == 0 {
      if |left| > 0 {
        ModePrefix(left, right, |left| - 1);
        QuoteOfMode(left, |left| - 1);
        assert whole[|left| - 1] == left[|left| - 1] && whole[|left|] == right[0];
      }
    } else {
      ModeSuffix(left, right, k - 1);
      assert whole[|left| + k - 1] == right[k - 1];
      assert whole[|left| + k] == right[k];
      assert ModeAt(whole, |left| + k) == Next(ModeAt(whole, |left| + k - 1), whole, |left| + k - 1);
    }
  }

  lemma {:induction false} ConcatLeft(left: string, right: string, i: nat)
    requires ModeAt(left, |left|) == Code && !Seam(left, right) && i < |left|
    ensures MaskChar(left + right, i) == MaskChar(left, i)
  {
    var whole := left + right;
    ModePrefix(left, right, i);
    assert whole[i] == left[i];
    if i + 1 < |left| {
      assert whole[i + 1] == left[i + 1];
    } else if i + 1 < |whole| {
      assert whole[i + 1] == right[0];
      assert ModeAt(left, |left|) == Next(ModeAt(left, i), left, i);
    }
  }

  lemma {:induction false} ConcatRight(left: string, right: string, k: nat)
    requires ModeAt(left, |left|) == Code && !Seam(left, right) && k < |right|
    ensures MaskChar(left + right, |left| + k) == MaskChar(right, k)
  {
    var whole := left + right;
    ModeSuffix(left, right, k);
    assert whole[|left| + k] == right[k];
    if k + 1 < |right| {
      assert whole[|left| + k + 1] == right[k + 1];
    }
  }

  lemma {:induction false} MaskParts(left: string, right: string)
    requires ModeAt(left, |left|) == Code && !Seam(left, right)
    ensures Mask(left + right) == Mask(left) + Mask(right)
  {
    var whole, first, second := Mask(left + right), Mask(left), Mask(right);
    forall i | 0 <= i < |left|
      ensures whole[i] == first[i]
    {
      ConcatLeft(left, right, i);
    }
    forall k | 0 <= k < |right|
      ensures whole[|left| + k] == second[k]
    {
      ConcatRight(left, right, k);
    }
    SameParts(whole, first, second);
  }

  lemma SameParts(whole: string, left: string, right: string)
    requires |whole| == |left| + |right|
    requires forall i :: 0 <= i < |left| ==> whole[i] == left[i]
    requires forall k :: 0 <= k < |right| ==> whole[|left| + k] == right[k]
    ensures whole == left + right
  {
    forall i | 0 <= i < |whole|
      ensures whole[i] == (left + right)[i]
    {
      if i >= |left| {
        assert whole[|left| + (i - |left|)] == right[i - |left|];
      }
    }
  }

  lemma SeamIsLost(left: string, right: string)
    requires Seam(left, right)
    ensures Mask(left + right)[|left| - 1] != Mask(left)[|left| - 1]
    ensures Mask(left + right) != Mask(left) + Mask(right)
  {
    var last := |left| - 1;
    ModePrefix(left, right, last);
    assert (left + right)[last] == left[last] && (left + right)[last + 1] == right[0];
    assert MaskChar(left + right, last) == ' ' && MaskChar(left, last) == left[last];
    assert Mask(left + right)[last] != (Mask(left) + Mask(right))[last];
  }

  /**
   Two texts, the first of which ends in code, mask independently of each
   other exactly when no comment opener straddles the joint.
   */
  lemma {:induction false} MaskConcat(left: string, right: string)
    requires ModeAt(left, |left|) == Code
    ensures Mask(left + right) == Mask(left) + Mask(right) <==> !Seam(left, right)
  {
    if Seam(left, right) {
      SeamIsLost(left, right);
    } else {
      MaskParts(left, right);
    }
  }

  // ---- joining to a text that ends in a line comment ----

  /** The offset of the first newline from i on, or the end of the text. */
  function LineEnd(text: string, i: nat): (end: nat)
    requires i <= |text|
    ensures i <= end <= |text| && (end < |text| ==> text[end] == '\n')
    ensures forall k :: i <= k < end ==> text[k] != '\n'
    decreases |text| - i
  {
    if i == |text| || text[i] == '\n' then i else LineEnd(text, i + 1)
  }

  /**
   The text loses nothing behind an open line comment: it shows nothing before
   its first newline, and what it shows from there on does not depend on what
   stands before.
   */
  predicate SurvivesLine(text: string) {
    var end := LineEnd(text, 0);
    && (forall k :: 0 <= k < end ==> Mask(text)[k] == ' ')
    && Mask(text)[end..] == Mask(text[end..])
  }

  /** Without a literal or block comment across its first newline, only the blanks before it matter. */
  lemma {:induction false} SurvivesByBlanks(text: string)
    requires LineEnd(text, 0) == |text| || ModeAt(text, LineEnd(text, 0)) == Code
    ensures SurvivesLine(text) <==> forall k :: 0 <= k < LineEnd(text, 0) ==> Mask(text)[k] == ' '
  {
    var end := LineEnd(text, 0);
    if end < |text| {
      MaskLocality(text, end, |text|);
      assert text[end..|text|] == text[end..] && Mask(text)[end..|text|] == Mask(text)[end..];
    } else {
      assert text[end..] == [] && Mask(text)[end..] == [] && Mask(text[end..]) == [];
    }
  }

  /** The blanks alone do not decide: a literal may reach across the newline. */
  lemma QuoteAcrossNewline()
    ensures var text := "'\nx";
            && (forall k :: 0 <= k < LineEnd(text, 0) ==> Mask(text)[k] == ' ')
            && !SurvivesLine(text)
  {
    var text := "'\nx";
    assert LineEnd(text, 1) == 1 && LineEnd(text, 0) == 1;
    assert ModeAt(text, 1) == Quoted('\'') && ModeAt(text, 2) == Quoted('\'');
    assert Mask(text)[1..][1] == ' ';
    var rest := text[1..];
    assert ModeAt(rest, 1) == Code;
    assert Mask(rest)[1] == 'x';
  }

  /** An open line comment goes on up to the first newline of the text behind it. */
  lemma {:induction false} LineGoesOn(left: string, right: string, k: nat)
    requires ModeAt(left, |left|) == Line && k < |right|
    requires forall j :: 0 <= j < k ==> right[j] != '\n'
    ensures ModeAt(left + right, |left| + k) == if right[k] == '\n' then Code else Line
  {
    var whole := left + right;
    if k == 0 {
      ModePrefix(left, right, |left| - 1);
      assert ModeAt(left, |left|) == Next(ModeAt(left, |left| - 1), left, |left| - 1);
      assert whole[|left|] == right[0];
    } else {
      LineGoesOn(left, right, k - 1);
      assert whole[|left| + k - 1] == right[k - 1] && whole[|left| + k] == right[k];
      assert ModeAt(whole, |left| + k) == Next(ModeAt(whole, |left| + k - 1), whole, |left| + k - 1);
    }
  }

  lemma {:induction false} LineLeft(left: string, right: string, i: nat)
    requires ModeAt(left, |left|) == Line && i < |left|
    ensures MaskChar(left + right, i) == MaskChar(left, i)
  {
    var whole := left + right;
    ModePrefix(left, right, i);
    assert whole[i] == left[i];
    if i + 1 < |left| {
      assert whole[i + 1] == left[i + 1];
    } else {
      assert ModeAt(left, |left|) == Next(ModeAt(left, i), left, i);
    }
  }

  /** The mask of a text that stands behind an open line comment. */
  function MaskBehindLine(text: string): (mask: string)
    ensures |mask| == |text|
  {
    var end := LineEnd(text, 0);
    seq(end, _ => ' ') + Mask(text[end..])
  }

  lemma SurvivesMeaning(text: string)
    ensures SurvivesLine(text) <==> Mask(text) == MaskBehindLine(text)
  {
    var end := LineEnd(text, 0);
    var mask, behind := Mask(text), MaskBehindLine(text);
    assert mask == mask[..end] + mask[end..];
    assert behind[..end] == seq(end, _ => ' ') && behind[end..] == Mask(text[end..]);
    assert (forall k :: 0 <= k < end ==> mask[k] == ' ') <==> mask[..end] == behind[..end];
    assert behind == behind[..end] + behind[end..];
  }

  lemma {:induction false} LineRight(left: string, right: string, k: nat)
    requires ModeAt(left, |left|) == Line && k < LineEnd(right, 0)
    ensures Mask(left + right)[|left| + k] == ' '
  {
    LineGoesOn(left, right, k);
    assert (left + right)[|left| + k] == right[k];
  }

  lemma {:induction false} LineRest(left: string, right: string)
    requires ModeAt(left, |left|) == Line
    ensures var end := LineEnd(right, 0); Mask(left + right)[|left| + end..] == Mask(right[end..])
  {
    var whole, end := left + right, LineEnd(right, 0);
    if end < |right| {
      LineGoesOn(left, right, end);
      assert whole[|left| + end] == right[end];
      MaskLocality(whole, |left| + end, |whole|);
      assert whole[|left| + end..|whole|] == right[end..];
      assert Mask(whole)[|left| + end..|whole|] == Mask(whole)[|left| + end..];
    } else {
      assert Mask(whole)[|left| + end..] == [] && right[end..] == [];
    }
  }

  lemma {:induction false} BehindAt(left: string, right: string, k: nat)
    requires ModeAt(left, |left|) == Line && k < |right|
    ensures Mask(left + right)[|left| + k] == MaskBehindLine(right)[k]
  {
    var whole, end := Mask(left + right), LineEnd(right, 0);
    if k < end {
      LineRight(left, right, k);
    } else {
      LineRest(left, right);
      assert whole[|left| + end..][k - end] == whole[|left| + k];
    }
  }

  lemma {:induction false} BehindLine(left: string, right: string)
    requires ModeAt(left, |left|) == Line
    ensures Mask(left + right) == Mask(left) + MaskBehindLine(right)
  {
    var whole, first, second := Mask(left + right), Mask(left), MaskBehindLine(right);
    forall i | 0 <= i < |left|
      ensures whole[i] == first[i]
    {
      LineLeft(left, right, i);
    }
    forall k | 0 <= k < |right|
      ensures whole[|left| + k] == second[k]
    {
      BehindAt(left, right, k);
    }
    SameParts(whole, first, second);
  }

  lemma SameTail(front: string, a: string, b: string)
    ensures front + a == front + b <==> a == b
  {
    assert (front + a)[|front|..] == a && (front + b)[|front|..] == b;
  }

  /**
   Two texts, the first of which ends in a line comment, mask independently of
   each other exactly when the second survives the comment.
   */
  lemma {:induction false} MaskConcatLine(left: string, right: string)
    requires ModeAt(left, |left|) == Line
    ensures Mask(left + right) == Mask(left) + Mask(right) <==> SurvivesLine(right)
  {
    BehindLine(left, right);
    SurvivesMeaning(right);
    SameTail(Mask(left), Mask(right), MaskBehindLine(right));
  }

  // ---- what is blanked ----

  lemma {:induction false} InsideLiteral(src: string, q: char, k: nat)
    requires IsQuote(q) && 0 < k < |src| && src[0] == q
    requires forall j :: 0 < j < k ==> src[j] != q
    ensures ModeAt(src, k) == Quoted(q)
  {
    if k > 1 {
      InsideLiteral(src, q, k - 1);
    }
  }

  /** A quoted text is blanked to its closing quote, newlines apart, and code goes on behind it. */
  lemma LiteralIsBlank(q: char, body: string, rest: string)
    requires IsQuote(q) && q !in body && (rest == [] || rest[0] != q)
    ensures var src := [q] + body + [q] + rest;
            && (forall k :: 0 <= k < |body| + 2 ==> Mask(src)[k] == if src[k] == '\n' then '\n' else ' ')
            && CutStart(src, |body| + 2)
  {
    var src := [q] + body + [q] + rest;
    assert src[|body| + 1] == q;
    forall k | 0 <= k < |body| + 2
      ensures MaskChar(src, k) == if src[k] == '\n' then '\n' else ' '
      ensures k == |body| + 1 ==> ModeAt(src, k) == Quoted(q)
    {
      assert 0 < k <= |body| ==> src[k] == body[k - 1];
      if k > 0 {
        assert forall j :: 0 < j < k ==> src[j] == body[j - 1];
        InsideLiteral(src, q, k);
      }
    }
    assert |src| > |body| + 2 ==> src[|body| + 2] == rest[0];
  }

  /** A line comment is blanked up to its newline, and code goes on there. */
  lemma LineCommentIsBlank(body: string, rest: string)
    requires '\n' !in body
    ensures var src := "--" + body + "\n" + rest;
            (forall k :: 0 <= k < |body| + 2 ==> Mask(src)[k] == ' ') && CutStart(src, |body| + 2)
  {
    var src := "--" + body + "\n" + rest;
    assert src[0] == '-' && src[1] == '-' && src[|body| + 2] == '\n';
    assert forall j :: 2 <= j < |body| + 2 ==> src[j] == body[j - 2];
    forall k | 0 <= k < |body| + 2
      ensures MaskChar(src, k) == ' '
    {
      if k > 0 {
        LineRun(src, 0, k);
      }
    }
    LineRun(src, 0, |body| + 2);
  }

  // ---- the tool's lexer ----

  /** `str.find` of a two-character needle: the first occurrence at or after `from`, or -1. */
  method FindPair(src: string, c: char, d: char, from: nat) returns (at: int)
    ensures at == -1 || (from <= at < |src| && PairAt(src, at, c, d))
    ensures forall k :: from <= k < (if at == -1 then |src| else at) ==> !PairAt(src, k, c, d)
  {
    var i := from;
    while i + 1 < |src|
      invariant from <= i
      invariant forall k :: from <= k < i ==> !PairAt(src, k, c, d)
    {
      if PairAt(src, i, c, d) {
        return i;
      }
      i := i + 1;
    }
    return -1;
  }

  /** `str.find` of one character. */
  method FindChar(src: string, c: char, from: nat) returns (at: int)
    ensures at == -1 || (from <= at < |src| && src[at] == c)
    ensures forall k :: from <= k < (if at == -1 then |src| else at) ==> src[k] != c
  {
    var i := from;
    while i < |src|
      invariant from <= i
      invariant forall k :: from <= k < i && k < |src| ==> src[k] != c
    {
      if src[i] == c {
        return i;
      }
      i := i + 1;
    }
    return -1;
  }

  /** A line comment lasts to the newline that ends it. */
  lemma {:induction false} LineRun(src: string, start: nat, k: nat)
    requires start < k < |src| && ModeAt(src, start) == Code && PairAt(src, start, '-', '-')
    requires forall j :: start <= j < k ==> src[j] != '\n'
    ensures ModeAt(src, k) == if src[k] == '\n' then Code else Line
  {
    if k > start + 1 {
      LineRun(src, start, k - 1);
    }
  }

  /** A block comment lasts to the first close after its opener. */
  lemma {:induction false} BlockRun(src: string, start: nat, k: nat)
    requires start + 1 < k < |src| && ModeAt(src, start) == Code && PairAt(src, start, '/', '*')
    requires forall j :: start + 2 <= j < k ==> !PairAt(src, j, '*', '/')
    ensures ModeAt(src, start + 1) == BlockStar && ModeAt(src, k) == Block
  {
    if k > start + 2 {
      BlockRun(src, start, k - 1);
    }
  }

  /** The mode the tool's `quote` variable stands for; a space stands for no quote. */
  function QuoteMode(quote: char): Mode {
    if quote == ' ' then Code else Quoted(quote)
  }

  /** The first `index` characters of the output are masked and the rest is still the source. */
  ghost predicate MaskedTo(source: string, output: seq<char>, index: nat) {
    && |output| == |source|
    && (forall k :: 0 <= k < index && k < |source| ==> output[k] == MaskChar(source, k))
    && (forall k :: index <= k < |source| ==> output[k] == source[k])
  }

  /** Blanks a line comment up to its newline. */
  method MaskLineComment(source: string, output: array<char>, index: nat) returns (end: nat)
    requires MaskedTo(source, output[..], index)
    requires CutStart(source, index) && PairAt(source, index, '-', '-')
    modifies output
    ensures index < end && CutEnd(source, end) && MaskedTo(source, output[..], end)
  {
    var newline := FindChar(source, '\n', index);
    end := if newline < 0 then |source| else newline;
    forall k | index < k <= end && k < |source|
      ensures ModeAt(source, k) == if k == end then Code else Line
    {
      LineRun(source, index, k);
    }
    forall k | index <= k < end {
      output[k] := ' ';
    }
  }

  /** Blanks a block comment, closed or not, and keeps its newlines. */
  method MaskBlockComment(source: string, output: array<char>, index: nat) returns (after: nat)
    requires MaskedTo(source, output[..], index)
    requires CutStart(source, index) && PairAt(source, index, '/', '*')
    modifies output
    ensures index < after && CutEnd(source, after) && MaskedTo(source, output[..], after)
  {
    var close := FindPair(source, '*', '/', index + 2);
    var end := if close < 0 then |source| - 2 else close;
    BlockModes(source, index, end, close >= 0);
    var position := index;
    while position < end + 2
      invariant index <= position <= end + 2
      invariant MaskedTo(source, output[..], position)
    {
      if source[position] != '\n' {
        output[position] := ' ';
      }
      position := position + 1;
    }
    after := end + 2;
  }

  lemma BlockModes(source: string, index: nat, end: nat, closed: bool)
    requires CutStart(source, index) && PairAt(source, index, '/', '*') && end + 2 <= |source|
    requires forall k :: index + 2 <= k < end ==> !PairAt(source, k, '*', '/')
    requires if closed then index + 2 <= end && PairAt(source, end, '*', '/')
             else end + 2 == |source| && (index + 2 <= end ==> !PairAt(source, end, '*', '/'))
    ensures forall k :: index <= k < end + 2 && source[k] != '\n' ==> MaskChar(source, k) == ' '
    ensures CutEnd(source, end + 2)
  {
    assert ModeAt(source, index + 1) == BlockStar;
    forall k | index + 2 <= k <= end
      ensures ModeAt(source, k) == Block
    {
      BlockRun(source, index, k);
    }
    if index + 1 < end {
      assert ModeAt(source, end + 1) == Next(ModeAt(source, end), source, end);
    }
  }

  /** sql_mask: overwrites a copy of the text in place and jumps over whole comments. */
  method SqlMask(source: string) returns (mask: string)
    ensures mask == Mask(source)
  {
    var output := new char[|source|](i requires 0 <= i < |source| => source[i]);
    var index := 0;
    var quote := ' ';
    while index < |source|
      invariant 0 <= index <= |source|
      invariant quote == ' ' || IsQuote(quote)
      invariant index < |source| ==> ModeAt(source, index) == QuoteMode(quote)
      invariant MaskedTo(source, output[..], index)
    {
      if quote != ' ' {
        if source[index] == quote {
          if index + 1 < |source| && source[index + 1] == quote {
            assert ModeAt(source, index + 1) == Doubled(quote);
            output[index], output[index + 1] := ' ', ' ';
            index := index + 2;
            continue;
          }
          output[index] := ' ';
          quote := ' ';
        } else if source[index] != '\n' {
          output[index] := ' ';
        }
        index := index + 1;
        continue;
      }
      if PairAt(source, index, '-', '-') {
        index := MaskLineComment(source, output, index);
        continue;
      }
      if PairAt(source, index, '/', '*') {
        index := MaskBlockComment(source, output, index);
        continue;
      }
      if IsQuote(source[index]) {
        quote := source[index];
        output[index] := ' ';
      }
      index := index + 1;
    }
    mask := output[..];
  }
}
