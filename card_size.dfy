/** Equal card heights on the about page (src/scripts/about/card-size.js):
    every card of the cards section gets, as its minimum height, the
    height of the tallest card measured without any minimum height. */
module CardSize {
  import opened Common

  /** A card: the height its content gives it, and its inline
      `min-height` in pixels (`None` is the empty value). */
  datatype Card = Card(naturalHeight: nat, minHeight: Option<nat>)

  /** `offsetHeight`: a minimum height only ever makes a card taller. */
  function OffsetHeight(c: Card): (h: nat)
    ensures h >= c.naturalHeight
    ensures c.minHeight.Some? ==> h >= c.minHeight.value
    ensures h == c.naturalHeight || (c.minHeight.Some? && h == c.minHeight.value)
  {
    if c.minHeight.Some? && c.minHeight.value > c.naturalHeight then c.minHeight.value else c.naturalHeight
  }

  /** The tallest natural height among the cards. */
  function MaxNatural(cs: seq<Card>): nat
    requires |cs| > 0
  {
    if |cs| == 1 then cs[0].naturalHeight
    else
      var rest := MaxNatural(cs[..|cs| - 1]);
      var last := cs[|cs| - 1].naturalHeight;
      if last > rest then last else rest
  }

  /** The maximum is at least every card's natural height and is one of
      them. */
  lemma {:induction false} MaxNaturalIsMaximum(cs: seq<Card>)
    requires |cs| > 0
    ensures forall i :: 0 <= i < |cs| ==> cs[i].naturalHeight <= MaxNatural(cs)
    ensures exists i :: 0 <= i < |cs| && cs[i].naturalHeight == MaxNatural(cs)
  {
    if |cs| > 1 {
      MaxNaturalIsMaximum(cs[..|cs| - 1]);
      var k :| 0 <= k < |cs| - 1 && cs[..|cs| - 1][k].naturalHeight == MaxNatural(cs[..|cs| - 1]);
      assert cs[..|cs| - 1][k] == cs[k];
      if cs[|cs| - 1].naturalHeight <= MaxNatural(cs[..|cs| - 1]) {
        assert cs[k].naturalHeight == MaxNatural(cs);
      } else {
        assert cs[|cs| - 1].naturalHeight == MaxNatural(cs);
      }
    } else {
      assert cs[0].naturalHeight == MaxNatural(cs);
    }
  }

  /** The cards after `equalizeCardHeights`. */
  function Equalized(cs: seq<Card>): seq<Card>
    requires |cs| > 0
  {
    seq(|cs|, i requires 0 <= i < |cs| => cs[i].(minHeight := Some(MaxNatural(cs))))
  }

  /** Afterwards every card is as tall as the tallest card's content, and
      no card's content changed. */
  lemma EqualizedCardsAreEqual(cs: seq<Card>)
    requires |cs| > 0
    ensures var after := Equalized(cs);
            && |after| == |cs|
            && (forall i :: 0 <= i < |cs| ==> after[i].naturalHeight == cs[i].naturalHeight)
            && (forall i :: 0 <= i < |cs| ==> OffsetHeight(after[i]) == MaxNatural(cs))
            && (forall i :: 0 <= i < |cs| ==> after[i].minHeight == Some(MaxNatural(cs)))
  {
    MaxNaturalIsMaximum(cs);
  }

  lemma {:induction false} MaxNaturalOfSameContent(cs: seq<Card>, ds: seq<Card>)
    requires |cs| == |ds| > 0
    requires forall i :: 0 <= i < |cs| ==> cs[i].naturalHeight == ds[i].naturalHeight
    ensures MaxNatural(cs) == MaxNatural(ds)
  {
    if |cs| > 1 {
      MaxNaturalOfSameContent(cs[..|cs| - 1], ds[..|ds| - 1]);
    }
  }

  /** Because the minimum heights are cleared before measuring, the result
      depends only on the natural heights; in particular equalizing twice
      gives what equalizing once gave. */
  lemma EqualizedIgnoresOldMinimums(cs: seq<Card>, ds: seq<Card>)
    requires |cs| == |ds| > 0
    requires forall i :: 0 <= i < |cs| ==> cs[i].naturalHeight == ds[i].naturalHeight
    ensures Equalized(cs) == Equalized(ds)
    ensures Equalized(Equalized(cs)) == Equalized(cs)
  {
    MaxNaturalOfSameContent(cs, ds);
    MaxNaturalOfSameContent(Equalized(cs), cs);
  }

  /** The cards section, when the page has one, and its cards. */
  class CardSection {
    const present: bool
    const cards: array<Card>

    constructor(sectionPresent: bool, initial: seq<Card>)
      ensures present == sectionPresent && cards[..] == initial && fresh(cards)
    {
      present := sectionPresent;
      cards := new Card[|initial|](i requires 0 <= i < |initial| => initial[i]);
    }

    /** `equalizeCardHeights()`. */
    method EqualizeCardHeights()
      modifies cards
      ensures !present || cards.Length == 0 ==> cards[..] == old(cards[..])
      ensures present && cards.Length > 0 ==> cards[..] == Equalized(old(cards[..]))
    {
      if !present || cards.Length == 0 {
        return;
      }
      ghost var before := cards[..];
      var i := 0;
      while i < cards.Length
        invariant 0 <= i <= cards.Length
        invariant forall k :: 0 <= k < i ==> cards[k] == before[k].(minHeight := None)
        invariant forall k :: i <= k < cards.Length ==> cards[k] == before[k]
      {
        cards[i] := cards[i].(minHeight := None);
        i := i + 1;
      }
      var maxHeight := OffsetHeight(cards[0]);
      i := 1;
      while i < cards.Length
        invariant 1 <= i <= cards.Length
        invariant maxHeight == MaxNatural(cards[..i])
        invariant forall k :: 0 <= k < cards.Length ==> cards[k] == before[k].(minHeight := None)
      {
        assert cards[..i + 1][..i] == cards[..i];
        var h := OffsetHeight(cards[i]);
        if h > maxHeight {
          maxHeight := h;
        }
        i := i + 1;
      }
      assert cards[..i] == cards[..];
      MaxNaturalOfSameContent(cards[..], before);
      i := 0;
      while i < cards.Length
        invariant 0 <= i <= cards.Length
        invariant forall k :: 0 <= k < i ==> cards[k] == before[k].(minHeight := Some(maxHeight))
        invariant forall k :: i <= k < cards.Length ==> cards[k] == before[k].(minHeight := None)
      {
        cards[i] := cards[i].(minHeight := Some(maxHeight));
        i := i + 1;
      }
      assert forall k :: 0 <= k < cards.Length ==> cards[k] == Equalized(before)[k];
    }
  }
}
