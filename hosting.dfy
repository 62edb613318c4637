/** The hosting step: the list of domains the app should be served from, typed one at a time. */
module Hosting {
  import opened Common
  import opened Text
  import opened Lists

  /** A key pressed in the domain input. */
  datatype Key = EnterKey | OtherKey(name: string)

  class AddHostingStep {
    var domains: seq<string>
    var input: string

    /** The domains stay duplicate-free, and each is non-empty and equal to its own trim. */
    ghost predicate Valid()
      reads this
    {
      WellKept(domains)
    }

    constructor ()
      ensures Valid()
      ensures domains == [] && input == ""
    {
      domains := [];
      input := "";
    }

    /** The input's `onChange`. */
    method SetInput(value: string)
      requires Valid()
      modifies this
      ensures Valid()
      ensures input == value && domains == old(domains)
    {
      input := value;
    }

    /** `handleAddDomain`. */
    method AddDomain()
      requires Valid()
      modifies this
      ensures Valid()
      ensures (domains, input) == AddTrimmed(old(domains), old(input))
    {
      AddTrimmedKeeps(domains, input);
      var r := AddTrimmed(domains, input);
      domains, input := r.0, r.1;
    }

    /** `handleRemoveDomain`. */
    method RemoveDomain(domain: string)
      requires Valid()
      modifies this
      ensures Valid()
      ensures domains == Remove(old(domains), domain) && input == old(input)
    {
      RemoveKeeps(domains, domain);
      domains := Remove(domains, domain);
    }

    /** `handleInputKeyDown`: Enter adds, any other key does nothing. */
    method KeyDown(key: Key)
      requires Valid()
      modifies this
      ensures Valid()
      ensures key.EnterKey? ==> (domains, input) == AddTrimmed(old(domains), old(input))
      ensures !key.EnterKey? ==> domains == old(domains) && input == old(input)
    {
      if key.EnterKey? {
        AddDomain();
      }
    }

    /** `handleContinue`: the domains go to `setData` (when given) before `onNext`. */
    method Continue(hasSetData: bool) returns (calls: seq<HostCall<seq<string>>>)
      ensures calls == SetDataThenNext(hasSetData, domains)
    {
      calls := SetDataThenNext(hasSetData, domains);
    }
  }

  /** Removing a listed domain deletes that one entry and keeps the others in order. */
  lemma RemoveDomainAt(domains: seq<string>, k: nat)
    requires WellKept(domains) && k < |domains|
    ensures Remove(domains, domains[k]) == domains[..k] + domains[k + 1..]
  {
    RemoveAt(domains, domains[k], k);
  }

  /** The Add button is enabled exactly when pressing it can add something: a blank input adds
      nothing. */
  lemma BlankInputAddsNothing(domains: seq<string>, input: string)
    requires JsTrim(input) == ""
    ensures AddTrimmed(domains, input) == (domains, input)
  {
  }
}
