/** The three-question project-info step: name, website type and description, asked one at a
    time, with the animated icon of the web-app card. The answers are props owned by the host;
    the component only forwards edits through `onChange`. */
module ProjectInfo {
  import opened Common
  import opened Text

  /** `questions.length`. */
  const QuestionCount: int := 3

  /** The icon of the web-app card that the two-second interval moves to:
      `(prev + 1) % webappIcons.length`. */
  function NextIcon(i: int): (r: int)
    ensures 0 <= r < 3
  {
    (i + 1) % 3
  }

  /** The icon index stays among the three icons and comes back to its start after three
      ticks. */
  lemma IconCycle(i: int)
    requires 0 <= i < 3
    ensures NextIcon(i) != i
    ensures NextIcon(NextIcon(NextIcon(i))) == i
  {
  }

  /** Whether the Continue button of the step is disabled (`None`: the step shows no button). */
  function ButtonDisabled(step: int, projectName: string, isWebApp: Option<bool>): Option<bool> {
    if step == 0 then Some(|JsTrim(projectName)| == 0)
    else if step == 1 then Some(isWebApp.None?)
    else None
  }

  /** The step-0 button is disabled exactly when the name is blank. */
  lemma ButtonDisabledIff(projectName: string, isWebApp: Option<bool>)
    ensures ButtonDisabled(0, projectName, isWebApp) ==
      Some(forall i | 0 <= i < |projectName| :: IsJsWhitespace(projectName[i]))
    ensures ButtonDisabled(1, projectName, isWebApp) == Some(isWebApp.None?)
  {
    StripShape(projectName, JsBlanks);
  }

  datatype Key = EnterKey | OtherKey(name: string)

  class BasicProjectInfoStep {
    var step: int
    var webappIconIndex: int

    ghost predicate Valid()
      reads this
    {
      0 <= step < QuestionCount && 0 <= webappIconIndex < 3
    }

    constructor ()
      ensures Valid()
      ensures step == 0 && webappIconIndex == 0
    {
      step := 0;
      webappIconIndex := 0;
    }

    /** `handleNext`: the next question, or `onNext` after the last one. */
    method HandleNext() returns (calls: seq<HostCall<bool>>)
      requires Valid()
      modifies this
      ensures Valid()
      ensures old(step) < QuestionCount - 1 ==> step == old(step) + 1 && calls == []
      ensures old(step) == QuestionCount - 1 ==> step == old(step) && calls == [OnNext]
      ensures webappIconIndex == old(webappIconIndex)
    {
      if step < QuestionCount - 1 {
        step := step + 1;
        calls := [];
      } else {
        calls := [OnNext];
      }
    }

    /** `handleKeyPress`: Enter moves on from the name question when the name is not blank and
        from the description question when the description is not blank; nothing else. Both
        tests read the step of the render the handler belongs to, so at most one of them fires. */
    method KeyPress(key: Key, projectName: string, description: string) returns (calls: seq<HostCall<bool>>)
      requires Valid()
      modifies this
      ensures Valid()
      ensures var advances := key.EnterKey? &&
        ((old(step) == 0 && |JsTrim(projectName)| > 0) || (old(step) == 2 && |JsTrim(description)| > 0));
        && (advances && old(step) == 0 ==> step == 1 && calls == [])
        && (advances && old(step) == 2 ==> step == 2 && calls == [OnNext])
        && (!advances ==> step == old(step) && calls == [])
      ensures webappIconIndex == old(webappIconIndex)
    {
      calls := [];
      var rendered := step;
      if key.EnterKey? {
        if rendered == 0 && |JsTrim(projectName)| > 0 {
          calls := HandleNext();
        }
        if rendered == 2 && |JsTrim(description)| > 0 {
          calls := HandleNext();
        }
      }
    }

    /** One tick of the interval that runs while the website-type question is shown. */
    method IconTick()
      requires Valid() && step == 1
      modifies this
      ensures Valid()
      ensures webappIconIndex == NextIcon(old(webappIconIndex)) && step == old(step)
    {
      webappIconIndex := NextIcon(webappIconIndex);
    }
  }
}
