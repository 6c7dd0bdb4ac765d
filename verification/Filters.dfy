/**
 The --item-id and --tags filters.  build_plan normalises filters that _collect
 has already normalised, so the second pass has to select the same items.
 */
module Filters {
  import opened Prelude
  import opened Versioning
  import opened Content
  import opened ContentValidator
  import opened Planner

  // ---- normalisation ----

  function CommaAt(text: string, i: nat): (at: nat)
    requires i <= |text|
    ensures i <= at <= |text| && (at < |text| ==> text[at] == ',')
    ensures forall k :: i <= k < at ==> text[k] != ','
    decreases |text| - i
  {
    if i == |text| || text[i] == ',' then i else CommaAt(text, i + 1)
  }

  /** text.split(",") */
  function SplitCommas(text: string): seq<string>
    decreases |text|
  {
    var at := CommaAt(text, 0);
    if at == |text| then [text] else [text[..at]] + SplitCommas(text[at + 1..])
  }

  predicate CommaFree(text: string) {
    ',' !in text
  }

  /** Adds the parts of one raw value that are new and not blank. */
  function AddParts(result: seq<string>, parts: seq<string>): seq<string>
    decreases |parts|
  {
    if parts == [] then result
    else
      var part := Trim(parts[0]);
      AddParts(if part != "" && part !in result then result + [part] else result, parts[1..])
  }

  function AddValues(result: seq<string>, values: seq<string>): seq<string>
    decreases |values|
  {
    if values == [] then result else AddValues(AddParts(result, SplitCommas(values[0])), values[1..])
  }

  function Normalized(values: seq<string>): seq<string> {
    AddValues([], values)
  }

  /** _normalized_filter for a given filter */
  method NormalizedFilter(values: seq<string>) returns (result: seq<string>)
    ensures result == Normalized(values)
  {
    result := [];
    for i := 0 to |values|
      invariant AddValues(result, values[i..]) == Normalized(values)
    {
      var parts := SplitCommas(values[i]);
      assert values[i..][1..] == values[i + 1..];
      ghost var target := AddParts(result, parts);
      for j := 0 to |parts|
        invariant AddParts(result, parts[j..]) == target
      {
        assert parts[j..][1..] == parts[j + 1..];
        var normalized := Trim(parts[j]);
        if normalized != "" && normalized !in result {
          result := result + [normalized];
        }
      }
    }
  }

  /** A text that a normalised filter may hold. */
  predicate IsToken(text: string) {
    text != "" && CommaFree(text) && Trim(text) == text
  }

  predicate AreTokens(values: seq<string>) {
    && (forall i :: 0 <= i < |values| ==> IsToken(values[i]))
    && NoDuplicates(values)
  }

  lemma {:induction false} TrimIsTrimmed(text: string)
    ensures Trim(Trim(text)) == Trim(text)
    ensures CommaFree(text) ==> CommaFree(Trim(text))
    decreases |text|
  {
    if |text| > 0 && IsSpace(text[0]) {
      TrimIsTrimmed(text[1..]);
    } else if |text| > 0 && IsSpace(text[|text| - 1]) {
      TrimIsTrimmed(text[..|text| - 1]);
    }
  }

  lemma {:induction false} PartsAreCommaFree(text: string)
    ensures forall part :: part in SplitCommas(text) ==> CommaFree(part)
    ensures CommaFree(text) ==> SplitCommas(text) == [text]
    decreases |text|
  {
    var at := CommaAt(text, 0);
    if at < |text| {
      PartsAreCommaFree(text[at + 1..]);
      assert text[at] in text;
    }
  }

  lemma {:induction false} AddPartsTokens(result: seq<string>, parts: seq<string>)
    requires AreTokens(result) && forall part :: part in parts ==> CommaFree(part)
    ensures AreTokens(AddParts(result, parts))
    decreases |parts|
  {
    if parts != [] {
      var part := Trim(parts[0]);
      TrimIsTrimmed(parts[0]);
      AddPartsTokens(if part != "" && part !in result then result + [part] else result, parts[1..]);
    }
  }

  /** A normalised filter holds distinct, trimmed, non-empty texts without commas. */
  lemma {:induction false} NormalizedTokens(result: seq<string>, values: seq<string>)
    requires AreTokens(result)
    ensures AreTokens(AddValues(result, values))
    decreases |values|
  {
    if values != [] {
      PartsAreCommaFree(values[0]);
      AddPartsTokens(result, SplitCommas(values[0]));
      NormalizedTokens(AddParts(result, SplitCommas(values[0])), values[1..]);
    }
  }

  lemma {:induction false} TokensStay(result: seq<string>, values: seq<string>)
    requires AreTokens(result + values)
    ensures AddValues(result, values) == result + values
    decreases |values|
  {
    if values == [] {
      assert result + values == result;
    } else {
      var whole := result + values;
      assert whole[|result|] == values[0] && IsToken(values[0]);
      PartsAreCommaFree(values[0]);
      forall k | 0 <= k < |result|
        ensures result[k] != values[0]
      {
        assert whole[k] != whole[|result|];
      }
      assert AddParts(result, [values[0]]) == result + [values[0]];
      assert (result + [values[0]]) + values[1..] == whole;
      TokensStay(result + [values[0]], values[1..]);
    }
  }

  /** Normalising a normalised filter changes nothing. */
  lemma NormalizedIdempotent(values: seq<string>)
    ensures Normalized(Normalized(values)) == Normalized(values)
  {
    NormalizedTokens([], values);
    var once := Normalized(values);
    assert [] + once == once;
    TokensStay([], once);
  }

  // ---- selection ----

  datatype FilterError = BothFilters | UnknownItem | UnknownTag

  /** canonical_tags.get(folded): the last available tag that folds to it. */
  function Canonical(available: seq<string>, folded: string): (tag: Option<string>)
    ensures tag.Some? ==> tag.value in available && Lower(tag.value) == folded
  {
    if available == [] then None
    else if Lower(available[|available| - 1]) == folded then Some(available[|available| - 1])
    else Canonical(available[..|available| - 1], folded)
  }

  /** The canonical tags of some requested ones, or None if one of them is unknown. */
  function CanonicalTags(available: seq<string>, tokens: seq<string>): Option<set<string>> {
    if tokens == [] then Some({})
    else
      var rest := CanonicalTags(available, tokens[..|tokens| - 1]);
      var last := Canonical(available, Lower(tokens[|tokens| - 1]));
      if rest.Some? && last.Some? then Some(rest.value + {last.value}) else None
  }

  /** _selected_filters over the known item ids and the available tags. */
  function SelectedFilters(knownItems: set<string>, available: seq<string>,
                           items: Option<seq<string>>, tags: Option<seq<string>>)
    : Result<Selection, FilterError>
  {
    if items.Some? && tags.Some? then Err(BothFilters)
    else if items.Some? then
      var ids := Normalized(items.value);
      if exists i :: 0 <= i < |ids| && ids[i] !in knownItems then Err(UnknownItem)
      else Ok(ItemIds(set id | id in ids))
    else if tags.None? then Ok(Everything)
    else
      match CanonicalTags(available, Normalized(tags.value))
      case None => Err(UnknownTag)
      case Some(wanted) => Ok(Tags(wanted))
  }

  /** A canonical tag of a token is a token, and its own canonical form. */
  lemma {:induction false} CanonicalToken(available: seq<string>, token: string)
    requires IsToken(token) && Canonical(available, Lower(token)).Some?
    ensures var tag := Canonical(available, Lower(token)).value;
            IsToken(tag) && Canonical(available, Lower(tag)) == Some(tag)
  {
    var tag := Canonical(available, Lower(token)).value;
    assert |tag| == |Lower(tag)| == |token|;
    forall i | 0 <= i < |tag|
      ensures tag[i] != ',' && (IsSpace(tag[i]) <==> IsSpace(token[i]))
    {
      assert Lower(tag)[i] == Lower(token)[i];
      assert token[i] in token;
    }
    TrimKeeps(token);
    assert Trim(tag) == tag;
  }

  lemma {:induction false} TrimShortens(text: string)
    ensures |Trim(text)| <= |text|
    decreases |text|
  {
    if |text| > 0 && IsSpace(text[0]) {
      TrimShortens(text[1..]);
    } else if |text| > 0 && IsSpace(text[|text| - 1]) {
      TrimShortens(text[..|text| - 1]);
    }
  }

  lemma {:induction false} TrimKeeps(text: string)
    requires Trim(text) == text && text != ""
    ensures !IsSpace(text[0]) && !IsSpace(text[|text| - 1])
  {
    if IsSpace(text[0]) {
      TrimShortens(text[1..]);
    } else if IsSpace(text[|text| - 1]) {
      TrimShortens(text[..|text| - 1]);
    }
  }

  lemma {:induction false} TokensNormalize(values: seq<string>, token: string)
    requires forall i :: 0 <= i < |values| ==> IsToken(values[i])
    ensures token in Normalized(values) <==> token in values
  {
    AddTokens([], values, token);
  }

  lemma {:induction false} OneToken(result: seq<string>, token: string)
    requires IsToken(token)
    ensures AddParts(result, [token]) == if token !in result then result + [token] else result
  {
    var next := if token !in result then result + [token] else result;
    assert [token][1..] == [];
    assert AddParts(result, [token]) == AddParts(next, []);
  }

  lemma {:induction false} AddTokens(result: seq<string>, values: seq<string>, token: string)
    requires forall i :: 0 <= i < |values| ==> IsToken(values[i])
    ensures token in AddValues(result, values) <==> token in result || token in values
    decreases |values|
  {
    if values != [] {
      assert IsToken(values[0]);
      PartsAreCommaFree(values[0]);
      var next := AddParts(result, [values[0]]);
      OneToken(result, values[0]);
      AddTokens(next, values[1..], token);
      assert values == [values[0]] + values[1..];
    }
  }

  /**
   Filtering again with the outcome of a first filtering, its tags in any order,
   gives the same selection: requirements and plan see the same items.
   */
  lemma SelectionStable(knownItems: set<string>, available: seq<string>, items: Option<seq<string>>,
                        tags: Option<seq<string>>, again: seq<string>)
    requires SelectedFilters(knownItems, available, items, tags).Ok?
    requires var s := SelectedFilters(knownItems, available, items, tags).value;
             match s
             case Everything => true
             case ItemIds(_) => again == Normalized(items.value)
             case Tags(wanted) => forall tag :: tag in again <==> tag in wanted
    ensures var s := SelectedFilters(knownItems, available, items, tags).value;
            match s
            case Everything => items.None? && tags.None?
            case ItemIds(_) => SelectedFilters(knownItems, available, Some(again), None) == Ok(s)
            case Tags(_) => SelectedFilters(knownItems, available, None, Some(again)) == Ok(s)
  {
    if items.Some? {
      NormalizedIdempotent(items.value);
    } else if tags.Some? {
      TagsStable(available, tags.value, again);
    }
  }

  lemma {:induction false} CanonicalTagsAreTokens(available: seq<string>, tokens: seq<string>)
    requires (forall i :: 0 <= i < |tokens| ==> IsToken(tokens[i])) && CanonicalTags(available, tokens).Some?
    ensures forall tag :: tag in CanonicalTags(available, tokens).value ==>
              IsToken(tag) && Canonical(available, Lower(tag)) == Some(tag)
  {
    if tokens != [] {
      CanonicalTagsAreTokens(available, tokens[..|tokens| - 1]);
      CanonicalToken(available, tokens[|tokens| - 1]);
    }
  }

  lemma {:induction false} CanonicalTagsFixed(available: seq<string>, tokens: seq<string>)
    requires forall i :: 0 <= i < |tokens| ==> Canonical(available, Lower(tokens[i])) == Some(tokens[i])
    ensures CanonicalTags(available, tokens).Some?
    ensures CanonicalTags(available, tokens).value == set tag | tag in tokens
  {
    if tokens != [] {
      var init, last := tokens[..|tokens| - 1], tokens[|tokens| - 1];
      CanonicalTagsFixed(available, init);
      assert tokens == init + [last];
      assert CanonicalTags(available, tokens).value == (set tag | tag in init) + {last};
    }
  }

  lemma {:induction false} TagsStable(available: seq<string>, tags: seq<string>, again: seq<string>)
    requires CanonicalTags(available, Normalized(tags)).Some?
    requires forall tag :: tag in again <==> tag in CanonicalTags(available, Normalized(tags)).value
    ensures CanonicalTags(available, Normalized(again)) == CanonicalTags(available, Normalized(tags))
  {
    NormalizedTokens([], tags);
    CanonicalTagsAreTokens(available, Normalized(tags));
    forall i | 0 <= i < |again|
      ensures IsToken(again[i]) && Canonical(available, Lower(again[i])) == Some(again[i])
    {
      assert again[i] in again;
    }
    FixedTokens(available, again);
    assert (set tag | tag in again) == CanonicalTags(available, Normalized(tags)).value;
  }

  lemma {:induction false} FixedTokens(available: seq<string>, again: seq<string>)
    requires forall i :: 0 <= i < |again| ==>
               IsToken(again[i]) && Canonical(available, Lower(again[i])) == Some(again[i])
    ensures CanonicalTags(available, Normalized(again)).Some?
    ensures CanonicalTags(available, Normalized(again)).value == set tag | tag in again
  {
    var second := Normalized(again);
    forall tag
      ensures tag in second <==> tag in again
    {
      TokensNormalize(again, tag);
    }
    forall i | 0 <= i < |second|
      ensures Canonical(available, Lower(second[i])) == Some(second[i])
    {
      assert second[i] in second;
    }
    CanonicalTagsFixed(available, second);
    assert (set tag | tag in second) == (set tag | tag in again);
  }

  // ---- what is asked for ----

  /** ",".join(parts) */
  function JoinCommas(parts: seq<string>): string
    requires parts != []
  {
    if |parts| == 1 then parts[0] else parts[0] + "," + JoinCommas(parts[1..])
  }

  /** Splitting at the commas loses nothing. */
  lemma {:induction false} SplitCommasJoin(text: string)
    ensures SplitCommas(text) != [] && JoinCommas(SplitCommas(text)) == text
    decreases |text|
  {
    var at := CommaAt(text, 0);
    if at < |text| {
      SplitCommasJoin(text[at + 1..]);
      assert text == text[..at] + "," + text[at + 1..];
    }
  }

  /** Trimming cuts white space off both ends, and no end is left with any. */
  lemma {:induction false} TrimMeaning(text: string) returns (from: nat, to: nat)
    ensures from <= to <= |text| && Trim(text) == text[from..to]
    ensures forall k :: 0 <= k < |text| && !(from <= k < to) ==> IsSpace(text[k])
    ensures from < to ==> !IsSpace(text[from]) && !IsSpace(text[to - 1])
    decreases |text|
  {
    if |text| > 0 && IsSpace(text[0]) {
      from, to := TrimMeaning(text[1..]);
      from, to := from + 1, to + 1;
      assert text[1..][from - 1..to - 1] == text[from..to];
      assert forall k :: 0 < k < |text| ==> text[k] == text[1..][k - 1];
    } else if |text| > 0 && IsSpace(text[|text| - 1]) {
      from, to := TrimMeaning(text[..|text| - 1]);
      assert text[..|text| - 1][from..to] == text[from..to];
    } else {
      from, to := 0, |text|;
    }
  }

  /** The token is one of the parts, trimmed. */
  predicate IsPart(parts: seq<string>, token: string) {
    token != "" && exists i :: 0 <= i < |parts| && Trim(parts[i]) == token
  }

  lemma {:induction false} AddPartsMeaning(result: seq<string>, parts: seq<string>, token: string)
    ensures token in AddParts(result, parts) <==> token in result || IsPart(parts, token)
    decreases |parts|
  {
    if parts != [] {
      var part := Trim(parts[0]);
      AddPartsMeaning(if part != "" && part !in result then result + [part] else result, parts[1..], token);
      if i :| 0 <= i < |parts[1..]| && Trim(parts[1..][i]) == token {
        assert Trim(parts[i + 1]) == token;
      }
      if i :| 0 <= i < |parts| && Trim(parts[i]) == token {
        assert i > 0 ==> Trim(parts[1..][i - 1]) == token;
      }
    }
  }

  lemma {:induction false} AddValuesMeaning(result: seq<string>, values: seq<string>, token: string)
    ensures token in AddValues(result, values) <==>
              token in result || exists v :: 0 <= v < |values| && IsPart(SplitCommas(values[v]), token)
    decreases |values|
  {
    if values != [] {
      AddPartsMeaning(result, SplitCommas(values[0]), token);
      AddValuesMeaning(AddParts(result, SplitCommas(values[0])), values[1..], token);
      if v :| 0 <= v < |values[1..]| && IsPart(SplitCommas(values[1..][v]), token) {
        assert IsPart(SplitCommas(values[v + 1]), token);
      }
      if v :| 0 <= v < |values| && IsPart(SplitCommas(values[v]), token) {
        assert v > 0 ==> IsPart(SplitCommas(values[1..][v - 1]), token);
      }
    }
  }

  /** A normalised filter holds exactly the trimmed, non-empty parts of the given values. */
  lemma NormalizedMeaning(values: seq<string>, token: string)
    ensures token in Normalized(values) <==>
              exists v :: 0 <= v < |values| && IsPart(SplitCommas(values[v]), token)
  {
    AddValuesMeaning([], values, token);
  }

  /** A folded tag is known exactly when some available tag folds to it. */
  lemma {:induction false} CanonicalMeaning(available: seq<string>, folded: string)
    ensures Canonical(available, folded).Some? <==> exists i :: 0 <= i < |available| && Lower(available[i]) == folded
  {
    if available != [] {
      CanonicalMeaning(available[..|available| - 1], folded);
    }
  }

  lemma {:induction false} CanonicalTagsMeaning(available: seq<string>, tokens: seq<string>)
    ensures CanonicalTags(available, tokens).Some? <==>
              forall i :: 0 <= i < |tokens| ==> Canonical(available, Lower(tokens[i])).Some?
    ensures CanonicalTags(available, tokens).Some? ==>
              forall tag :: tag in CanonicalTags(available, tokens).value <==>
                exists i :: 0 <= i < |tokens| && Canonical(available, Lower(tokens[i])) == Some(tag)
  {
    if tokens != [] {
      var n := |tokens| - 1;
      CanonicalTagsMeaning(available, tokens[..n]);
      assert tokens == tokens[..n] + [tokens[n]];
      if CanonicalTags(available, tokens).Some? {
        forall tag
          ensures tag in CanonicalTags(available, tokens).value <==>
                    exists i :: 0 <= i < |tokens| && Canonical(available, Lower(tokens[i])) == Some(tag)
        {
          CanonicalTagStep(available, tokens[..n], tokens[n], tag);
        }
      }
    }
  }

  lemma {:induction false} CanonicalTagStep(available: seq<string>, init: seq<string>, last: string, tag: string)
    ensures (exists i :: 0 <= i < |init + [last]| && Canonical(available, Lower((init + [last])[i])) == Some(tag)) <==>
            ((exists i :: 0 <= i < |init| && Canonical(available, Lower(init[i])) == Some(tag))
             || Canonical(available, Lower(last)) == Some(tag))
  {
    var tokens := init + [last];
    if i :| 0 <= i < |init| && Canonical(available, Lower(init[i])) == Some(tag) {
      assert tokens[i] == init[i];
    }
    assert tokens[|init|] == last;
  }

  /** When a filter is accepted, and what it selects. */
  lemma {:induction false} SelectedFiltersMeaning(knownItems: set<string>, available: seq<string>,
                               items: Option<seq<string>>, tags: Option<seq<string>>)
    ensures var s := SelectedFilters(knownItems, available, items, tags);
            && (s == Err(BothFilters) <==> items.Some? && tags.Some?)
            && (s == Ok(Everything) <==> items.None? && tags.None?)
            && (items.Some? && tags.None? ==>
                  if forall id :: id in Normalized(items.value) ==> id in knownItems
                  then s.Ok? && s.value.ItemIds? && forall id :: id in s.value.ids <==> id in Normalized(items.value)
                  else s == Err(UnknownItem))
            && (items.None? && tags.Some? ==>
                  if CanonicalTags(available, Normalized(tags.value)).Some?
                  then s == Ok(Tags(CanonicalTags(available, Normalized(tags.value)).value))
                  else s == Err(UnknownTag))
  {
    if items.Some? && tags.None? {
      var ids := Normalized(items.value);
      if id :| id in ids && id !in knownItems {
        var i :| 0 <= i < |ids| && ids[i] == id;
      }
    }
  }
}
