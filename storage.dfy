/** The storage step: a yes/no question, then the choice of typical upload use cases and
    custom ones. Its Continue does not hand the selection to the page. */
module Storage {
  import opened Common
  import opened Text
  import opened Lists

  const PredefinedUseCases: seq<string> := ["User profile avatars", "Subscription invoices", "Terms & Services"]

  class AddStorageStep {
    var showConfig: bool
    var selectedUseCases: seq<string>
    var customUseCase: string

    /** The selection stays duplicate-free. */
    ghost predicate Valid()
      reads this
    {
      NoDup(selectedUseCases)
    }

    constructor ()
      ensures Valid()
      ensures !showConfig && selectedUseCases == [] && customUseCase == ""
    {
      showConfig := false;
      selectedUseCases := [];
      customUseCase := "";
    }

    /** "Yes, configure". */
    method YesClick()
      requires Valid()
      modifies this
      ensures Valid()
      ensures showConfig && selectedUseCases == old(selectedUseCases) && customUseCase == old(customUseCase)
    {
      showConfig := true;
    }

    /** "Back" on the configuration screen. */
    method BackClick()
      requires Valid()
      modifies this
      ensures Valid()
      ensures !showConfig && selectedUseCases == old(selectedUseCases) && customUseCase == old(customUseCase)
    {
      showConfig := false;
    }

    /** "No, continue": straight to the next step. */
    method NoClick() returns (calls: seq<HostCall<seq<string>>>)
      ensures calls == [OnNext]
    {
      calls := [OnNext];
    }

    /** A checkbox of a use case. */
    method ToggleUseCase(useCase: string)
      requires Valid()
      modifies this
      ensures Valid()
      ensures selectedUseCases == Toggle(old(selectedUseCases), useCase)
      ensures showConfig == old(showConfig) && customUseCase == old(customUseCase)
    {
      ToggleNoDup(selectedUseCases, useCase);
      selectedUseCases := Toggle(selectedUseCases, useCase);
    }

    /** The custom input's `onChange`. */
    method SetCustomUseCase(value: string)
      requires Valid()
      modifies this
      ensures Valid()
      ensures customUseCase == value && selectedUseCases == old(selectedUseCases) && showConfig == old(showConfig)
    {
      customUseCase := value;
    }

    /** `handleAddCustomUseCase`. */
    method AddCustomUseCase()
      requires Valid()
      modifies this
      ensures Valid()
      ensures (selectedUseCases, customUseCase) == AddTrimmed(old(selectedUseCases), old(customUseCase))
      ensures showConfig == old(showConfig)
    {
      AddTrimmedNoDup(selectedUseCases, customUseCase);
      var r := AddTrimmed(selectedUseCases, customUseCase);
      selectedUseCases, customUseCase := r.0, r.1;
    }

    /** `handleRemoveUseCase`. */
    method RemoveUseCase(useCase: string)
      requires Valid()
      modifies this
      ensures Valid()
      ensures selectedUseCases == Remove(old(selectedUseCases), useCase)
      ensures showConfig == old(showConfig) && customUseCase == old(customUseCase)
    {
      RemoveNoDup(selectedUseCases, useCase);
      selectedUseCases := Remove(selectedUseCases, useCase);
    }

    /** `handleContinue`: on to the next step; the selection is not handed over. */
    method Continue() returns (calls: seq<HostCall<seq<string>>>)
      ensures calls == [OnNext]
    {
      calls := [OnNext];
    }
  }

  /** A custom use case is added only when it is new: one already selected, say through its
      checkbox, leaves the selection and the input as they were. */
  lemma CustomDuplicateIgnored(selected: seq<string>, custom: string)
    requires JsTrim(custom) in selected
    ensures AddTrimmed(selected, custom) == (selected, custom)
  {
  }
}
