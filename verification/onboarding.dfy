/** The onboarding walkthrough (src/app/onboarding/page.tsx): six steps, a
    primary button that advances or finishes, and a secondary button that
    exits or goes back. The page state is the step index; router pushes and
    fetches are effects the transition emits. */
module Onboarding {

  import opened Common

  datatype SecondaryKind = Exit | Back

  datatype Secondary = Secondary(caption: string, action: SecondaryKind)

  /** A step of the walkthrough; the rendered body is not modelled. */
  datatype Step = Step(title: string, primary: string, secondary: Option<Secondary>)

  /** The `steps` table. */
  const Steps: seq<Step> := [
    Step("Welcome to Stillvo.", "Continue", None),
    Step("What this is", "That sounds right", Some(Secondary("This isn\U{2019}t for me", Exit))),
    Step("What this is not", "Continue", Some(Secondary("Back", Back))),
    Step("How being seen works", "I understand", Some(Secondary("Back", Back))),
    Step("Take your time", "Continue", Some(Secondary("Back", Back))),
    Step("Ready when you are", "Continue", Some(Secondary("Back", Back)))
  ]

  /** The index of the last step. */
  const Last: nat := |Steps| - 1

  /** What a button press does besides moving the index. */
  datatype Effect = EnsureProfile | CompleteOnboarding | Navigate(path: string)

  datatype Transition = Transition(index: nat, effects: seq<Effect>)

  /** The shape of the table: only the first step lacks a secondary button,
      only the second exits, the rest go back. */
  lemma StepsShape()
    ensures |Steps| == 6 && Last == 5
    ensures Steps[0].secondary.None?
    ensures Steps[1].secondary.Some? && Steps[1].secondary.value.action == Exit
    ensures forall i :: 2 <= i < |Steps| ==> Steps[i].secondary.Some? && Steps[i].secondary.value.action == Back
  {
  }

  /** The primary button (`next`): on the last step, ensure the profile, mark
      onboarding complete and go to `/start`, keeping the index; otherwise
      move one step on. */
  function Next(i: nat): (t: Transition)
    requires i < |Steps|
    ensures t.index < |Steps|
    ensures i < Last ==> t == Transition(i + 1, [])
    ensures i == Last ==> t == Transition(i, [EnsureProfile, CompleteOnboarding, Navigate("/start")])
  {
    if i == |Steps| - 1 then Transition(i, [EnsureProfile, CompleteOnboarding, Navigate("/start")])
    else Transition(i + 1, [])
  }

  /** `Math.max(0, v - 1)`. */
  function StepBack(i: nat): (j: nat)
    ensures j == if i == 0 then 0 else i - 1
  {
    if i == 0 then 0 else i - 1
  }

  /** The secondary button (`secondaryAction`): nothing on a step without
      one, `/` on exit with the index kept, one step back otherwise. */
  function SecondaryAction(i: nat): (t: Transition)
    requires i < |Steps|
    ensures t.index < |Steps|
    ensures Steps[i].secondary.None? ==> t == Transition(i, [])
    ensures Steps[i].secondary.Some? && Steps[i].secondary.value.action == Exit ==> t == Transition(i, [Navigate("/")])
    ensures Steps[i].secondary.Some? && Steps[i].secondary.value.action == Back ==> t == Transition(StepBack(i), [])
  {
    match Steps[i].secondary
    case None => Transition(i, [])
    case Some(s) =>
      match s.action
      case Exit => Transition(i, [Navigate("/")])
      case Back => Transition(StepBack(i), [])
  }

  /** Going back undoes going forward on every step that has a back button
      and is not the last. */
  lemma BackUndoesNext(i: nat)
    requires 1 <= i < Last
    ensures SecondaryAction(Next(i).index) == Transition(i, [])
  {
  }

  /** Back is only offered from step 2 on, so the clamp at 0 never applies. */
  lemma BackNeverClamps(i: nat)
    requires i < |Steps| && Steps[i].secondary.Some? && Steps[i].secondary.value.action == Back
    ensures SecondaryAction(i).index == i - 1
  {
  }

  datatype Press = Primary | SecondaryPress

  /** The index and effects after a sequence of presses from step `i`. */
  function Session(i: nat, presses: seq<Press>): Transition
    requires i < |Steps|
    decreases |presses|
  {
    if presses == [] then Transition(i, [])
    else
      var t := if presses[0] == Primary then Next(i) else SecondaryAction(i);
      var rest := Session(t.index, presses[1..]);
      Transition(rest.index, t.effects + rest.effects)
  }

  /** Whatever the user presses, the index stays in range, and the completion
      effects are only ever emitted as a whole and on the last step. */
  lemma {:induction false} SessionStaysInRange(i: nat, presses: seq<Press>)
    requires i < |Steps|
    ensures Session(i, presses).index < |Steps|
    ensures CompleteOnboarding in Session(i, presses).effects ==> Primary in presses
    decreases |presses|
  {
    if presses != [] {
      var t := if presses[0] == Primary then Next(i) else SecondaryAction(i);
      SessionStaysInRange(t.index, presses[1..]);
      if CompleteOnboarding in Session(i, presses).effects && presses[0] != Primary {
        assert CompleteOnboarding !in t.effects;
        assert Primary in presses[1..];
      }
    }
  }

  /** Pressing the primary button five times from the start reaches the
      last step, and the sixth press completes onboarding. */
  lemma StraightThrough()
    ensures Session(0, [Primary, Primary, Primary, Primary, Primary]) == Transition(Last, [])
    ensures Session(0, [Primary, Primary, Primary, Primary, Primary, Primary])
         == Transition(Last, [EnsureProfile, CompleteOnboarding, Navigate("/start")])
  {
  }
}
