/** The pricing step: editable pricing cards, each text edited in place through an inline
    editor. */
module Pricing {
  import opened Common

  const DefaultFeatures: seq<string> := ["Unlimited projects", "Basic analytics", "Email support"]

  datatype PricingCard = PricingCard(name: string, price: string, features: seq<string>,
                                     periodText: string, buttonText: string)

  /** The card keys edited with a text value. */
  datatype TextField = Name | Price | PeriodText | ButtonText

  const InitialCard: PricingCard := PricingCard("Basic", "$9", DefaultFeatures, "/month", "Get started")
  const NewCard: PricingCard := PricingCard("New Plan", "19", DefaultFeatures, "/month", "Get started")

  function FieldOf(c: PricingCard, f: TextField): string {
    match f
    case Name => c.name
    case Price => c.price
    case PeriodText => c.periodText
    case ButtonText => c.buttonText
  }

  /** `{ ...c, [field]: value }`. */
  function WithField(c: PricingCard, f: TextField, value: string): (r: PricingCard)
    ensures FieldOf(r, f) == value
    ensures forall g | g != f :: FieldOf(r, g) == FieldOf(c, g)
    ensures r.features == c.features
  {
    match f
    case Name => c.(name := value)
    case Price => c.(price := value)
    case PeriodText => c.(periodText := value)
    case ButtonText => c.(buttonText := value)
  }

  /** `handleChange`'s new cards. */
  function ChangeCard(cards: seq<PricingCard>, idx: int, f: TextField, value: string): seq<PricingCard> {
    seq(|cards|, i requires 0 <= i < |cards| => if i == idx then WithField(cards[i], f, value) else cards[i])
  }

  /** Only the named field of card idx changes; every other card, the card count and card idx's
      other fields and features stay; an index outside the list changes nothing. */
  lemma ChangeCardEffect(cards: seq<PricingCard>, idx: int, f: TextField, value: string)
    ensures |ChangeCard(cards, idx, f, value)| == |cards|
    ensures forall i | 0 <= i < |cards| && i != idx :: ChangeCard(cards, idx, f, value)[i] == cards[i]
    ensures 0 <= idx < |cards| ==>
      && FieldOf(ChangeCard(cards, idx, f, value)[idx], f) == value
      && (forall g | g != f :: FieldOf(ChangeCard(cards, idx, f, value)[idx], g) == FieldOf(cards[idx], g))
      && ChangeCard(cards, idx, f, value)[idx].features == cards[idx].features
    ensures !(0 <= idx < |cards|) ==> ChangeCard(cards, idx, f, value) == cards
  {
  }

  /** `features.map((f, j) => j === featureIdx ? value : f)`. */
  function ReplaceAt(xs: seq<string>, j: int, value: string): seq<string> {
    seq(|xs|, k requires 0 <= k < |xs| => if k == j then value else xs[k])
  }

  /** `handleFeatureChange`'s new cards. */
  function ChangeFeature(cards: seq<PricingCard>, cardIdx: int, featureIdx: int, value: string): seq<PricingCard> {
    seq(|cards|, i requires 0 <= i < |cards| =>
      if i == cardIdx then cards[i].(features := ReplaceAt(cards[i].features, featureIdx, value)) else cards[i])
  }

  /** Only feature featureIdx of card cardIdx changes; every feature list keeps its length and
      every card its texts. */
  lemma ChangeFeatureEffect(cards: seq<PricingCard>, cardIdx: int, featureIdx: int, value: string)
    ensures var r := ChangeFeature(cards, cardIdx, featureIdx, value);
      && |r| == |cards|
      && (forall i | 0 <= i < |cards| :: |r[i].features| == |cards[i].features|
            && forall g: TextField :: FieldOf(r[i], g) == FieldOf(cards[i], g))
      && (forall i, j | 0 <= i < |cards| && 0 <= j < |cards[i].features| ::
            r[i].features[j] == if i == cardIdx && j == featureIdx then value else cards[i].features[j])
  {
  }

  /** `cards.filter((_, i) => i !== idx)`, walking the list with the index counting down. */
  function DropIndex<T>(xs: seq<T>, idx: int): seq<T> {
    if xs == [] then []
    else (if idx == 0 then [] else [xs[0]]) + DropIndex(xs[1..], idx - 1)
  }

  /** Removing drops exactly position idx and keeps the rest in order; an index outside the list
      removes nothing. */
  lemma {:induction false} DropIndexEffect<T>(xs: seq<T>, idx: int)
    ensures 0 <= idx < |xs| ==> DropIndex(xs, idx) == xs[..idx] + xs[idx + 1..]
    ensures !(0 <= idx < |xs|) ==> DropIndex(xs, idx) == xs
  {
    if xs != [] {
      DropIndexEffect(xs[1..], idx - 1);
      if idx == 0 {
      } else if 0 < idx < |xs| {
        assert xs[1..][..idx - 1] == xs[1..idx];
        assert xs[1..][idx..] == xs[idx + 1..];
        assert xs[..idx] == [xs[0]] + xs[1..idx];
      } else {
        assert xs == [xs[0]] + xs[1..];
      }
    }
  }

  class ConfigurePricingStep {
    var cards: seq<PricingCard>

    /** The list starts with the one Basic card. */
    constructor ()
      ensures cards == [InitialCard]
    {
      cards := [InitialCard];
    }

    method HandleChange(idx: int, f: TextField, value: string)
      modifies this
      ensures cards == ChangeCard(old(cards), idx, f, value)
    {
      cards := ChangeCard(cards, idx, f, value);
    }

    method HandleFeatureChange(cardIdx: int, featureIdx: int, value: string)
      modifies this
      ensures cards == ChangeFeature(old(cards), cardIdx, featureIdx, value)
    {
      cards := ChangeFeature(cards, cardIdx, featureIdx, value);
    }

    /** `handleAdd`: a New Plan card at the end. */
    method HandleAdd()
      modifies this
      ensures cards == old(cards) + [NewCard]
    {
      cards := cards + [NewCard];
    }

    method HandleRemove(idx: int)
      modifies this
      ensures cards == DropIndex(old(cards), idx)
    {
      cards := DropIndex(cards, idx);
    }

    /** `handleContinue`: the cards go to `setData` (when given) before `onNext`. */
    method Continue(hasSetData: bool) returns (calls: seq<HostCall<seq<PricingCard>>>)
      ensures calls == SetDataThenNext(hasSetData, cards)
    {
      calls := SetDataThenNext(hasSetData, cards);
    }
  }

  /** A key pressed in the inline editor's input. */
  datatype Key = EnterKey | OtherKey(name: string)

  /** `InlineEdit`: shows `value`, and while editing holds the typed text in `temp`. The
      measured width and height are presentation and are not modelled. */
  class InlineEdit {
    var value: string
    var editing: bool
    var temp: string

    constructor (value0: string)
      ensures value == value0 && !editing && temp == value0
    {
      value := value0;
      editing := false;
      temp := value0;
    }

    /** A render with the `value` prop `v`: the effect on `[value]` runs only when the prop
        differs from the last one, and then resets the typed text; the same value again keeps
        what is being typed. */
    method ReceiveValue(v: string)
      modifies this
      ensures value == v && editing == old(editing)
      ensures temp == if v != old(value) then v else old(temp)
    {
      if v != value {
        temp := v;
      }
      value := v;
    }

    /** A click, or Enter on the shown text. */
    method StartEditing()
      modifies this
      ensures editing && value == old(value) && temp == old(temp)
    {
      editing := true;
    }

    /** The input's `onChange`. */
    method Type(t: string)
      modifies this
      ensures temp == t && editing == old(editing) && value == old(value)
    {
      temp := t;
    }

    /** `finishEditing` (blur, or Enter in the input): leaves edit mode and hands the typed text
      to `onChange`. */
    method FinishEditing() returns (committed: string)
      modifies this
      ensures !editing && committed == old(temp)
      ensures value == old(value) && temp == old(temp)
    {
      editing := false;
      committed := temp;
    }

    /** The input's `onKeyDown`: Enter finishes the edit, other keys commit nothing. */
    method KeyDown(key: Key) returns (committed: Option<string>)
      modifies this
      ensures key.EnterKey? ==> !editing && committed == Some(old(temp))
      ensures !key.EnterKey? ==> committed.None? && editing == old(editing)
      ensures value == old(value) && temp == old(temp)
    {
      committed := None;
      if key.EnterKey? {
        var c := FinishEditing();
        committed := Some(c);
      }
    }
  }
}
