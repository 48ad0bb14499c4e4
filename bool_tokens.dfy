/**
 * The truthy and falsy token sets `init` builds from the token lists: the
 * comma-separated pieces, trimmed, with empty pieces skipped.
 */
module BoolTokens {
  import opened Wrappers
  import opened GoStrings
  import opened GoStrconv
  import opened Constants
  import opened TokenLists

  /** A token as `init` stores it: non-empty, no whitespace at either end, no comma. */
  predicate IsStoredToken(v: string) {
    v != "" && !IsSpace(v[0]) && !IsSpace(v[|v| - 1]) && ',' !in v
  }

  /** The trimmed forms of the pieces that are not blank. */
  function TrimmedPieces(pieces: seq<string>): set<string> {
    set p | p in pieces && TrimSpace(p) != "" :: TrimSpace(p)
  }

  /** One more piece adds its trimmed form, unless it is blank. */
  lemma TrimmedPiecesAppend(pieces: seq<string>, p: string)
    ensures TrimmedPieces(pieces + [p]) ==
              TrimmedPieces(pieces) + (if TrimSpace(p) != "" then {TrimSpace(p)} else {})
  {
  }

  /**
   * The set of trimmed, non-empty comma-separated pieces of `list`: every
   * token is stored as `init` stores it, and every non-blank piece
   * contributes its trimmed form.
   */
  function TokenSet(list: string): (tokens: set<string>)
    ensures forall v :: v in tokens ==> IsStoredToken(v)
    ensures forall p :: p in Split(list, ',') && TrimSpace(p) != "" ==> TrimSpace(p) in tokens
  {
    var tokens := TrimmedPieces(Split(list, ','));
    assert forall v :: v in tokens ==> IsStoredToken(v) by {
      forall v | v in tokens
        ensures IsStoredToken(v)
      {
        var p :| p in Split(list, ',') && TrimSpace(p) != "" && TrimSpace(p) == v;
        TrimSpaceAvoids(p, ',');
      }
    }
    tokens
  }

  /** The loop of `init`: split, trim each piece, insert the non-empty ones. */
  method BuildTokenSet(list: string) returns (tokens: set<string>)
    ensures tokens == TokenSet(list)
  {
    var pieces := Split(list, ',');
    tokens := {};
    var i := 0;
    while i < |pieces|
      invariant 0 <= i <= |pieces|
      invariant tokens == TrimmedPieces(pieces[..i])
    {
      assert pieces[..i + 1] == pieces[..i] + [pieces[i]];
      TrimmedPiecesAppend(pieces[..i], pieces[i]);
      var v := TrimSpace(pieces[i]);
      if v != "" {
        tokens := tokens + {v};
      }
      i := i + 1;
    }
    assert pieces[..i] == pieces;
  }

  /** `init`: builds the truthy set, then the falsy set. */
  method Init() returns (trueSet: set<string>, falseSet: set<string>)
    ensures trueSet == TrueTokens && falseSet == FalseTokens
  {
    trueSet := BuildTokenSet(TrueValues);
    falseSet := BuildTokenSet(FalseValues);
    TrueSetIsTrueTokens();
    FalseSetIsFalseTokens();
  }

  const TrueTokenList: seq<string> := ["true", "True", "TRUE", "T", "t", "1", "yes", "Yes", "YES", "on", "On", "ON"]
  const FalseTokenList: seq<string> := ["false", "False", "FALSE", "F", "f", "0", "no", "No", "NO", "off", "Off", "OFF"]

  const TrueTokens: set<string> := {"true", "True", "TRUE", "T", "t", "1", "yes", "Yes", "YES", "on", "On", "ON"}
  const FalseTokens: set<string> := {"false", "False", "FALSE", "F", "f", "0", "no", "No", "NO", "off", "Off", "OFF"}

  /** No piece of a list has surrounding whitespace and none is empty. */
  predicate AllTrimmedTokens(pieces: seq<string>) {
    forall i :: 0 <= i < |pieces| ==> pieces[i] != "" && !IsSpace(pieces[i][0]) && !IsSpace(pieces[i][|pieces[i]| - 1])
  }

  /** When every piece is trimmed and non-empty, `init` keeps each piece unchanged. */
  lemma TokenSetOfTrimmed(list: string, pieces: seq<string>)
    requires Split(list, ',') == pieces && AllTrimmedTokens(pieces)
    ensures TokenSet(list) == set p | p in pieces
  {
    forall p | p in pieces
      ensures TrimSpace(p) == p
    {
      TrimSpaceKeeps(p);
    }
  }

  /** The truthy list splits into its twelve tokens. */
  lemma SplitTrueValues()
    ensures Split(TrueValues, ',') == TrueTokenList
  {
    SplitTrueThrough12(TrueValues);
  }

  /** The falsy list splits into its twelve tokens. */
  lemma SplitFalseValues()
    ensures Split(FalseValues, ',') == FalseTokenList
  {
    SplitFalseThrough12(FalseValues);
  }

  /** The truthy tokens are already trimmed, so `init` keeps each one as written. */
  lemma TrueTokenListTrimmed()
    ensures AllTrimmedTokens(TrueTokenList)
  {
  }

  lemma TrueTokenListElements()
    ensures (set p | p in TrueTokenList) == TrueTokens
  {
  }

  /** The falsy tokens are already trimmed, so `init` keeps each one as written. */
  lemma FalseTokenListTrimmed()
    ensures AllTrimmedTokens(FalseTokenList)
  {
  }

  lemma FalseTokenListElements()
    ensures (set p | p in FalseTokenList) == FalseTokens
  {
  }

  /** `init` builds exactly the twelve truthy tokens. */
  lemma TrueSetIsTrueTokens()
    ensures TokenSet(TrueValues) == TrueTokens
  {
    SplitTrueValues();
    TrueTokenListTrimmed();
    TrueTokenListElements();
    TokenSetOfTrimmed(TrueValues, TrueTokenList);
  }

  /** `init` builds exactly the twelve falsy tokens. */
  lemma FalseSetIsFalseTokens()
    ensures TokenSet(FalseValues) == FalseTokens
  {
    SplitFalseValues();
    FalseTokenListTrimmed();
    FalseTokenListElements();
    TokenSetOfTrimmed(FalseValues, FalseTokenList);
  }

  lemma TokenDisplaysDisjoint()
    ensures TrueTokens !! FalseTokens
  {
  }

  /** No token is both truthy and falsy, so the order of the two tests does not matter. */
  lemma TokenSetsDisjoint()
    ensures TokenSet(TrueValues) !! TokenSet(FalseValues)
  {
    TrueSetIsTrueTokens();
    FalseSetIsFalseTokens();
    TokenDisplaysDisjoint();
  }

  lemma TokenDisplayExamples()
    ensures "1" in TrueTokens && "0" in FalseTokens
    ensures "T" in TrueTokens && "Yes" in TrueTokens && "F" in FalseTokens && "No" in FalseTokens
    ensures "tRUE" !in TrueTokens && "tRUE" !in FalseTokens && "oN" !in TrueTokens && "oN" !in FalseTokens
  {
  }

  /** "1" is truthy and "0" falsy; matching is case-sensitive. */
  lemma TokenExamples()
    ensures "1" in TokenSet(TrueValues) && "0" in TokenSet(FalseValues)
    ensures "T" in TokenSet(TrueValues) && "Yes" in TokenSet(TrueValues)
    ensures "F" in TokenSet(FalseValues) && "No" in TokenSet(FalseValues)
    ensures "tRUE" !in TokenSet(TrueValues) && "tRUE" !in TokenSet(FalseValues)
    ensures "oN" !in TokenSet(TrueValues) && "oN" !in TokenSet(FalseValues)
  {
    TrueSetIsTrueTokens();
    FalseSetIsFalseTokens();
    TokenDisplayExamples();
  }

  lemma ParseBoolWithinDisplays(s: string)
    ensures ParseBool(s) == Ok(true) ==> s in TrueTokens
    ensures ParseBool(s) == Ok(false) ==> s in FalseTokens
    ensures s !in TrueTokens && s !in FalseTokens ==> ParseBool(s).Err?
  {
  }

  /** Every spelling `strconv.ParseBool` accepts is a token of the same meaning. */
  lemma ParseBoolWithinTokens(s: string)
    ensures ParseBool(s) == Ok(true) ==> s in TokenSet(TrueValues)
    ensures ParseBool(s) == Ok(false) ==> s in TokenSet(FalseValues)
    ensures s !in TokenSet(TrueValues) && s !in TokenSet(FalseValues) ==> ParseBool(s).Err?
  {
    TrueSetIsTrueTokens();
    FalseSetIsFalseTokens();
    ParseBoolWithinDisplays(s);
  }
}
