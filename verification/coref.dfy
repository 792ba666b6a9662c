/** The text normaliser: every token of the parsed document is replaced by the
    text of its resolved referents, or kept, and the results are joined into one string. */
module Coref {
  import opened Results
  import opened Strings

  /** One token of the parsed document: its own text and what coreference-chain
      resolution returned for it (`None` when the token has no antecedent). */
  datatype Token = Token(text: string, resolution: Option<seq<string>>)

  /** What a token stands for after resolution: itself, or a list of referent spans. */
  datatype Resolved = Own(text: string) | Refs(referents: seq<string>)

  /** `resolve(token) or token`: an absent or empty referent list falls back to the token. */
  function Resolve(t: Token): (r: Resolved)
    ensures r.Refs? ==> |r.referents| > 0 && t.resolution == Some(r.referents)
    ensures r.Own? ==> r.text == t.text
  {
    match t.resolution
    case Some(refs) => if |refs| > 0 then Refs(refs) else Own(t.text)
    case None => Own(t.text)
  }

  /** The text one token contributes: a referent list is joined with " and ". */
  function ResolvedText(r: Resolved): string {
    match r
    case Own(text) => text
    case Refs(referents) => Join(" and ", referents)
  }

  /** The per-token texts of a document, in token order. */
  function TokenTexts(doc: seq<Token>): (texts: seq<string>)
    ensures |texts| == |doc|
  {
    seq(|doc|, i requires 0 <= i < |doc| => ResolvedText(Resolve(doc[i])))
  }

  /** The whole document flattened: the per-token texts separated by single spaces. */
  function FlatText(doc: seq<Token>): string {
    Join(" ", TokenTexts(doc))
  }

  /** The accumulation loop of the normaliser. The working list is collapsed to one
      element after every token, so after `i` tokens it holds the join of their texts. */
  method Flatten(doc: seq<Token>) returns (flat: string)
    ensures flat == FlatText(doc)
    ensures |doc| == 0 ==> flat == ""
  {
    var corefDoc: seq<string> := [];
    for i := 0 to |doc|
      invariant |corefDoc| == (if i == 0 then 0 else 1)
      invariant i > 0 ==> corefDoc[0] == Join(" ", TokenTexts(doc[..i]))
    {
      var tokText := ResolvedText(Resolve(doc[i]));
      assert TokenTexts(doc[..i + 1]) == TokenTexts(doc[..i]) + [tokText];
      if i > 0 {
        JoinSnoc(" ", TokenTexts(doc[..i]), tokText);
        assert Join(" ", [corefDoc[0], tokText]) == corefDoc[0] + " " + tokText by {
          assert [corefDoc[0], tokText][1..] == [tokText];
        }
      }
      corefDoc := corefDoc + [tokText];
      corefDoc := [Join(" ", corefDoc)];
    }
    assert doc[..|doc|] == doc;
    flat := Join(" ", corefDoc);
  }

  /** A token whose resolution is a non-empty list contributes exactly those referents
      joined by " and "; any other token contributes its own text. */
  lemma TokenContribution(doc: seq<Token>, i: nat)
    requires i < |doc|
    ensures doc[i].resolution.Some? && |doc[i].resolution.value| > 0 ==>
      TokenTexts(doc)[i] == Join(" and ", doc[i].resolution.value)
    ensures doc[i].resolution.None? || |doc[i].resolution.value| == 0 ==>
      TokenTexts(doc)[i] == doc[i].text
  {
  }

  /** Flattening loses nothing when no token text contains a space: splitting the
      flat text on spaces gives back the per-token texts. */
  lemma FlatTextSplitsIntoTokens(doc: seq<Token>)
    requires |doc| > 0
    requires forall i :: 0 <= i < |doc| ==> ' ' !in ResolvedText(Resolve(doc[i]))
    ensures Split(' ', FlatText(doc)) == TokenTexts(doc)
  {
    SplitOfJoin(' ', TokenTexts(doc));
  }

  /** One more token extends the flat text of a non-empty document by a single
      space and that token's text; this is the step the accumulation loop takes. */
  lemma {:induction false} FlatTextSnoc(doc: seq<Token>, t: Token)
    requires |doc| > 0
    ensures FlatText(doc + [t]) == FlatText(doc) + " " + ResolvedText(Resolve(t))
  {
    assert TokenTexts(doc + [t]) == TokenTexts(doc) + [ResolvedText(Resolve(t))];
    JoinSnoc(" ", TokenTexts(doc), ResolvedText(Resolve(t)));
  }
}
