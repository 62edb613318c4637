/** The payments step: which payment methods the checkout offers. */
module Payments {
  import opened Common
  import opened Lists

  /** The values of the payment-method checkboxes. */
  const PaymentMethods: seq<string> := ["credit_card", "coupon", "paypal"]

  class AddPaymentsStep {
    var selected: seq<string>

    ghost predicate Valid()
      reads this
    {
      NoDup(selected)
    }

    /** The selection starts as exactly the credit card. */
    constructor ()
      ensures Valid()
      ensures selected == ["credit_card"]
    {
      selected := ["credit_card"];
    }

    /** `handleToggle`. */
    method HandleToggle(value: string)
      requires Valid()
      modifies this
      ensures Valid()
      ensures selected == Toggle(old(selected), value)
    {
      ToggleNoDup(selected, value);
      selected := Toggle(selected, value);
    }

    /** `handleContinue`: the selection goes to `setData` (when given) before `onNext`. */
    method Continue(hasSetData: bool) returns (calls: seq<HostCall<seq<string>>>)
      ensures calls == SetDataThenNext(hasSetData, selected)
    {
      calls := SetDataThenNext(hasSetData, selected);
    }
  }

  /** Unticking the credit card from the initial selection leaves nothing selected, and ticking
      it again restores the initial selection. */
  lemma InitialToggleRoundTrip()
    ensures Toggle(["credit_card"], "credit_card") == []
    ensures Toggle(Toggle(["credit_card"], "paypal"), "paypal") == ["credit_card"]
  {
    ToggleTwiceAbsent(["credit_card"], "paypal");
  }

  /** The selection holds only offered payment methods. */
  predicate Offered(selected: seq<string>) {
    forall m | m in selected :: m in PaymentMethods
  }

  /** The initial selection is offered, and ticking any payment-method checkbox keeps the
      selection a duplicate-free list of offered methods, so at most three are ever selected. */
  lemma ToggleWithinMethods(selected: seq<string>, choice: string)
    requires NoDup(selected) && Offered(selected) && choice in PaymentMethods
    ensures Offered(["credit_card"])
    ensures NoDup(Toggle(selected, choice)) && Offered(Toggle(selected, choice))
    ensures |Toggle(selected, choice)| <= |PaymentMethods|
  {
    ToggleNoDup(selected, choice);
    ToggleEffect(selected, choice);
    NoDupWithinBound(Toggle(selected, choice), PaymentMethods);
  }
}
