/** The authentication step: which sign-in providers the generated app offers. The component
    takes no `setData`, so the selection never leaves it. */
module AuthStep {
  import opened Common
  import opened Lists

  /** The values of the provider checkboxes. */
  const AuthProviders: seq<string> := ["password", "google", "amazon", "apple"]

  class ConfigureAuthStep {
    var selected: seq<string>

    ghost predicate Valid()
      reads this
    {
      NoDup(selected)
    }

    /** The selection starts as exactly the password provider. */
    constructor ()
      ensures Valid()
      ensures selected == ["password"]
    {
      selected := ["password"];
    }

    /** `handleToggle`. */
    method HandleToggle(value: string)
      requires Valid()
      modifies this
      ensures Valid()
      ensures selected == Toggle(old(selected), value)
    {
      ToggleNoDup(selected, value);
      selected := Toggle(selected, value);
    }

    /** The Continue button is `onNext` itself. */
    method Continue() returns (calls: seq<HostCall<seq<string>>>)
      ensures calls == [OnNext]
    {
      calls := [OnNext];
    }
  }

  /** Ticking an unselected provider selects it, and ticking it again gives the selection
      back. */
  lemma ToggleProviderTwice(selected: seq<string>, provider: string)
    requires provider !in selected
    ensures provider in Toggle(selected, provider)
    ensures Toggle(Toggle(selected, provider), provider) == selected
  {
    ToggleTwiceAbsent(selected, provider);
  }

  /** The selection holds only offered providers. */
  predicate Offered(selected: seq<string>) {
    forall p | p in selected :: p in AuthProviders
  }

  /** The initial selection is offered, and ticking any provider checkbox keeps the selection a
      duplicate-free list of offered providers, so at most four are ever selected. */
  lemma ToggleWithinProviders(selected: seq<string>, provider: string)
    requires NoDup(selected) && Offered(selected) && provider in AuthProviders
    ensures Offered(["password"])
    ensures NoDup(Toggle(selected, provider)) && Offered(Toggle(selected, provider))
    ensures |Toggle(selected, provider)| <= |AuthProviders|
  {
    ToggleNoDup(selected, provider);
    ToggleEffect(selected, provider);
    NoDupWithinBound(Toggle(selected, provider), AuthProviders);
  }
}
