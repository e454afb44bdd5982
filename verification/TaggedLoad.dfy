/**
  The load protocol shared by the lazy timeline section and the readout tab: a request counter that
  moves on when the identifying properties change, one effect per request whose cleanup clears its
  `active` flag, responses tagged with the request that asked for them, and a render that shows a
  response only under the current tags.

  `Params` stands for all identifying properties together.  A render, the later run of its effects
  and every response are separate steps, so responses can arrive in any order and also between a
  render and its effects.
*/
module TaggedLoad {
  import opened Options

  type Params = string

  datatype Outcome = Loaded(data: string) | Failed(message: string)

  datatype Request = Request(params: Params, generation: nat)

  datatype Effect = Effect(request: Request, active: bool)

  datatype Tagged = Tagged(request: Request, outcome: Outcome)

  /** `effects` are all effects ever run, oldest first; `answers` what the server said to them. */
  datatype State = State(props: Params, request: Request, effects: seq<Effect>,
                         answers: map<nat, Outcome>, stored: Option<Tagged>)

  function Mounted(props: Params): State {
    State(props, Request(props, 0), [], map[], None)
  }

  // ----- Steps ---------------------------------------------------------------------------------

  /** A render whose properties differ from the request bumps the generation before it commits. */
  function Rendered(s: State, props: Params): State {
    s.(props := props,
       request := if s.request.params != props then Request(props, s.request.generation + 1) else s.request)
  }

  predicate DepsChanged(s: State) {
    s.effects == [] || s.effects[|s.effects| - 1].request != s.request
  }

  function CleanedUp(effects: seq<Effect>): seq<Effect> {
    if effects == [] then [] else effects[|effects| - 1 := effects[|effects| - 1].(active := false)]
  }

  /** Running the effects of the last commit: clean up the previous effect and start a new fetch. */
  function EffectsRun(s: State): State {
    if DepsChanged(s) then s.(effects := CleanedUp(s.effects) + [Effect(s.request, true)]) else s
  }

  /** A response is stored under the tags of its own request; `guarded` says whether callbacks
      consult the `active` flag. */
  function Answered(guarded: bool, s: State, k: nat, outcome: Outcome): State
    requires k < |s.effects|
  {
    s.(answers := s.answers[k := outcome],
       stored := if s.effects[k].active || !guarded then Some(Tagged(s.effects[k].request, outcome)) else s.stored)
  }

  /** What the render displays; `None` is the loading state. */
  function Displayed(s: State): Option<Outcome> {
    if s.stored.Some? && s.stored.value.request.params == s.props &&
       s.stored.value.request.generation == s.request.generation
    then Some(s.stored.value.outcome) else None
  }

  // ----- The component -------------------------------------------------------------------------

  class Section {
    var props: Params
    var request: Request
    var effects: seq<Effect>
    var answers: map<nat, Outcome>
    var stored: Option<Tagged>

    function View(): State
      reads this
    {
      State(props, request, effects, answers, stored)
    }

    constructor (props: Params)
      ensures View() == Mounted(props)
    {
      this.props, this.request := props, Request(props, 0);
      effects, answers, stored := [], map[], None;
    }

    method Render(props: Params) returns (displayed: Option<Outcome>)
      modifies this
      ensures View() == Rendered(old(View()), props) && displayed == Displayed(View())
    {
      this.props := props;
      if request.params != props {
        request := Request(props, request.generation + 1);
      }
      displayed := if stored.Some? && stored.value.request.params == props &&
                      stored.value.request.generation == request.generation
                   then Some(stored.value.outcome) else None;
    }

    method RunEffects()
      modifies this
      ensures View() == EffectsRun(old(View()))
    {
      if effects == [] {
        effects := [Effect(request, true)];
      } else if effects[|effects| - 1].request != request {
        effects := effects[|effects| - 1 := effects[|effects| - 1].(active := false)];
        effects := effects + [Effect(request, true)];
      }
    }

    method Respond(k: nat, outcome: Outcome)
      requires k < |effects| && k !in answers
      modifies this
      ensures View() == Answered(true, old(View()), k, outcome)
    {
      answers := answers[k := outcome];
      if effects[k].active {
        stored := Some(Tagged(effects[k].request, outcome));
      }
    }
  }

  // ----- Runs ----------------------------------------------------------------------------------

  datatype Step = Render(props: Params) | RunEffects | Respond(k: nat, outcome: Outcome)

  ghost predicate Enabled(s: State, step: Step) {
    step.Respond? ==> step.k < |s.effects| && step.k !in s.answers
  }

  ghost function Take(guarded: bool, s: State, step: Step): State
    requires Enabled(s, step)
  {
    match step
    case Render(props) => Rendered(s, props)
    case RunEffects => EffectsRun(s)
    case Respond(k, outcome) => Answered(guarded, s, k, outcome)
  }

  ghost predicate IsRun(guarded: bool, s: State, steps: seq<Step>)
    decreases |steps|
  {
    steps == [] || (Enabled(s, steps[0]) && IsRun(guarded, Take(guarded, s, steps[0]), steps[1..]))
  }

  ghost function After(guarded: bool, s: State, steps: seq<Step>): State
    requires IsRun(guarded, s, steps)
    decreases |steps|
  {
    if steps == [] then s else After(guarded, Take(guarded, s, steps[0]), steps[1..])
  }

  /** Effects belong to ever later generations, none later than the current one; a stored response is
      the answer to an effect with the same tags. */
  ghost predicate Sound(s: State) {
    s.request.params == s.props &&
    (forall k :: 0 <= k < |s.effects| ==> s.effects[k].request.generation <= s.request.generation) &&
    (forall k :: 0 <= k < |s.effects| && s.effects[k].request.generation == s.request.generation ==>
       s.effects[k].request == s.request) &&
    (forall j, k :: 0 <= j < k < |s.effects| ==>
       s.effects[j].request.generation < s.effects[k].request.generation) &&
    (s.stored.Some? ==> exists k: nat :: IsAnswerTo(s, k, s.stored.value))
  }

  ghost predicate IsAnswerTo(s: State, k: nat, t: Tagged) {
    k < |s.effects| && s.effects[k].request == t.request && k in s.answers && s.answers[k] == t.outcome
  }

  lemma RenderKeepsSound(s: State, props: Params)
    requires Sound(s)
    ensures Sound(Rendered(s, props))
  {
    if s.stored.Some? {
      var k: nat :| IsAnswerTo(s, k, s.stored.value);
      assert IsAnswerTo(Rendered(s, props), k, s.stored.value);
    }
  }

  lemma EffectsKeepSound(s: State)
    requires Sound(s)
    ensures Sound(EffectsRun(s))
  {
    if s.stored.Some? {
      var k: nat :| IsAnswerTo(s, k, s.stored.value);
      assert IsAnswerTo(EffectsRun(s), k, s.stored.value);
    }
  }

  lemma AnswerKeepsSound(guarded: bool, s: State, k: nat, outcome: Outcome)
    requires Sound(s) && k < |s.effects| && k !in s.answers
    ensures Sound(Answered(guarded, s, k, outcome))
  {
    var s' := Answered(guarded, s, k, outcome);
    if s'.stored == Some(Tagged(s.effects[k].request, outcome)) {
      assert IsAnswerTo(s', k, s'.stored.value);
    } else if s.stored.Some? {
      var j: nat :| IsAnswerTo(s, j, s.stored.value);
      assert IsAnswerTo(s', j, s'.stored.value);
    }
  }

  lemma StepKeepsSound(guarded: bool, s: State, step: Step)
    requires Sound(s) && Enabled(s, step)
    ensures Sound(Take(guarded, s, step))
  {
    match step
    case Render(props) => RenderKeepsSound(s, props);
    case RunEffects => EffectsKeepSound(s);
    case Respond(k, outcome) => AnswerKeepsSound(guarded, s, k, outcome);
  }

  lemma {:induction false} RunsStaySound(guarded: bool, s: State, steps: seq<Step>)
    requires Sound(s) && IsRun(guarded, s, steps)
    ensures Sound(After(guarded, s, steps))
    decreases |steps|
  {
    if steps == [] {
    } else {
      StepKeepsSound(guarded, s, steps[0]);
      RunsStaySound(guarded, Take(guarded, s, steps[0]), steps[1..]);
    }
  }

  lemma CurrentIsNewest(s: State, k: nat)
    requires Sound(s) && k < |s.effects| && s.effects[k].request.generation == s.request.generation
    ensures k == |s.effects| - 1
  {
    var newest := s.effects[|s.effects| - 1];
    assert newest.request.generation <= s.request.generation;
  }

  /** In every run, with or without the `active` guard, what is displayed is the answer to the one
      effect of the current generation, which asked for the current properties.  An answer to an
      earlier visit of the same properties is never displayed. */
  lemma DisplayIsCurrent(guarded: bool, props: Params, steps: seq<Step>)
    requires IsRun(guarded, Mounted(props), steps)
    ensures var s := After(guarded, Mounted(props), steps);
            Displayed(s).Some? ==>
              exists k: nat :: IsAnswerTo(s, k, Tagged(Request(s.props, s.request.generation), Displayed(s).value)) &&
                forall j :: 0 <= j < |s.effects| && j != k ==> s.effects[j].request.generation != s.request.generation
  {
    RunsStaySound(guarded, Mounted(props), steps);
    var s := After(guarded, Mounted(props), steps);
    if Displayed(s).Some? {
      var k: nat :| IsAnswerTo(s, k, s.stored.value);
      CurrentIsNewest(s, k);
      forall j | 0 <= j < |s.effects| && j != k
        ensures s.effects[j].request.generation != s.request.generation
      {
        if s.effects[j].request.generation == s.request.generation {
          CurrentIsNewest(s, j);
        }
      }
    }
  }

  /** In a sound state, a render with the same properties changes nothing, and one with others takes them
      over and shows the loading state, even if they have been loaded before. */
  lemma RenderFollowsProps(s: State, props: Params)
    requires Sound(s)
    ensures props == s.props ==> Rendered(s, props) == s
    ensures props != s.props ==>
              Rendered(s, props).props == props && Rendered(s, props).effects == s.effects &&
              Displayed(Rendered(s, props)).None?
  {
    var s' := Rendered(s, props);
    if props != s.props && s.stored.Some? {
      var k: nat :| IsAnswerTo(s, k, s.stored.value);
      assert s.effects[k].request.generation <= s.request.generation < s'.request.generation;
    }
  }

  /** In every run, once the effects of a render have run, the newest effect is for exactly the current
      properties and generation; it is a new one if and only if the request had changed. */
  lemma EffectsAskForCurrent(guarded: bool, props: Params, steps: seq<Step>)
    requires IsRun(guarded, Mounted(props), steps)
    ensures var s := After(guarded, Mounted(props), steps);
            var s' := Take(guarded, s, RunEffects);
            s'.effects != [] && s'.effects[|s'.effects| - 1].request == Request(s.props, s.request.generation) &&
            |s'.effects| == |s.effects| +
              (if s.effects != [] && s.effects[|s.effects| - 1].request == Request(s.props, s.request.generation)
               then 0 else 1)
  {
    RunsStaySound(guarded, Mounted(props), steps);
  }

  // ----- What cleanup adds ---------------------------------------------------------------------

  /** Only the newest effect may still be active. */
  ghost predicate OnlyNewestActive(s: State) {
    forall k :: 0 <= k < |s.effects| - 1 ==> !s.effects[k].active
  }

  ghost predicate RendersOnly(steps: seq<Step>, props: Params) {
    forall i :: 0 <= i < |steps| && steps[i].Render? ==> steps[i].props == props
  }

  lemma {:induction false} ShownResultStays(s: State, steps: seq<Step>)
    requires Sound(s) && OnlyNewestActive(s) && Displayed(s).Some?
    requires IsRun(true, s, steps) && RendersOnly(steps, s.props)
    ensures Displayed(After(true, s, steps)) == Displayed(s)
    decreases |steps|
  {
    if steps == [] {
    } else {
      var s' := Take(true, s, steps[0]);
      StepKeepsSound(true, s, steps[0]);
      var k: nat :| IsAnswerTo(s, k, s.stored.value);
      CurrentIsNewest(s, k);
      ShownResultStays(s', steps[1..]);
    }
  }

  lemma {:induction false} NewestStaysOnlyActive(s: State, steps: seq<Step>)
    requires OnlyNewestActive(s) && IsRun(true, s, steps)
    ensures OnlyNewestActive(After(true, s, steps))
    decreases |steps|
  {
    if steps == [] {
    } else {
      NewestStaysOnlyActive(Take(true, s, steps[0]), steps[1..]);
    }
  }

  /** With cleanup in force a current result, once displayed, stays until the properties change: no
      older response displaces it. */
  lemma DisplayIsStable(props: Params, before: seq<Step>, after: seq<Step>)
    requires IsRun(true, Mounted(props), before)
    requires var s := After(true, Mounted(props), before);
             Displayed(s).Some? && IsRun(true, s, after) && RendersOnly(after, s.props)
    ensures var s := After(true, Mounted(props), before);
            Displayed(After(true, s, after)) == Displayed(s)
  {
    RunsStaySound(true, Mounted(props), before);
    NewestStaysOnlyActive(Mounted(props), before);
    ShownResultStays(After(true, Mounted(props), before), after);
  }

  /** The newest effect is active, and once it is answered its answer is what is stored. */
  ghost predicate NewestIsStored(s: State) {
    (forall k :: k in s.answers ==> k < |s.effects|) &&
    (s.effects != [] ==>
       var newest := |s.effects| - 1;
       s.effects[newest].active &&
       (newest in s.answers ==> s.stored == Some(Tagged(s.effects[newest].request, s.answers[newest]))))
  }

  lemma {:induction false} NewestStaysStored(s: State, steps: seq<Step>)
    requires NewestIsStored(s) && OnlyNewestActive(s) && IsRun(true, s, steps)
    ensures NewestIsStored(After(true, s, steps))
    decreases |steps|
  {
    if steps == [] {
    } else {
      NewestStaysStored(Take(true, s, steps[0]), steps[1..]);
    }
  }

  /** In every run with cleanup, something is displayed if and only if the newest effect is for the
      current request and has been answered: the loading state never outlives its answer. */
  lemma DisplayedIffAnswered(props: Params, steps: seq<Step>)
    requires IsRun(true, Mounted(props), steps)
    ensures var s := After(true, Mounted(props), steps);
            Displayed(s).Some? <==>
            s.effects != [] && s.effects[|s.effects| - 1].request == s.request && |s.effects| - 1 in s.answers
  {
    var s := After(true, Mounted(props), steps);
    RunsStaySound(true, Mounted(props), steps);
    NewestStaysStored(Mounted(props), steps);
    if Displayed(s).Some? {
      var k: nat :| IsAnswerTo(s, k, s.stored.value);
      CurrentIsNewest(s, k);
    }
  }

  /** While a current result is displayed, the arrival of any other response leaves it displayed if and
      only if the callbacks consult the `active` flag. */
  lemma FlagDecides(guarded: bool, s: State, k: nat, outcome: Outcome)
    requires Sound(s) && OnlyNewestActive(s) && Displayed(s).Some? && Enabled(s, Respond(k, outcome))
    ensures Displayed(Answered(guarded, s, k, outcome)) == Displayed(s) <==> guarded
    ensures !guarded ==> Displayed(Answered(guarded, s, k, outcome)).None?
  {
    var shown: nat :| IsAnswerTo(s, shown, s.stored.value);
    CurrentIsNewest(s, shown);
    assert k != shown;
    assert s.effects[k].request.generation < s.effects[shown].request.generation;
  }

  lemma Prepend(guarded: bool, s: State, step: Step, rest: seq<Step>)
    requires Enabled(s, step) && IsRun(guarded, Take(guarded, s, step), rest)
    ensures IsRun(guarded, s, [step] + rest)
    ensures After(guarded, s, [step] + rest) == After(guarded, Take(guarded, s, step), rest)
  {
    assert ([step] + rest)[1..] == rest;
  }

  /** Without the guard a late response to an older request replaces the current one, and the display
      falls back to loading although its answer has arrived. */
  lemma UnguardedDisplayIsLost(older: Outcome, current: Outcome)
    ensures var s := Mounted("a");
            var run := [RunEffects] + ([Render("b")] + ([RunEffects] + ([Respond(1, current)] + [])));
            IsRun(false, s, run) && Displayed(After(false, s, run)) == Some(current) &&
            Enabled(After(false, s, run), Respond(0, older)) &&
            Displayed(Take(false, After(false, s, run), Respond(0, older))) == None
  {
    var s0 := Mounted("a");
    var s1 := Take(false, s0, RunEffects);
    var s2 := Take(false, s1, Render("b"));
    var s3 := Take(false, s2, RunEffects);
    Prepend(false, s3, Respond(1, current), []);
    Prepend(false, s2, RunEffects, [Respond(1, current)] + []);
    Prepend(false, s1, Render("b"), [RunEffects] + ([Respond(1, current)] + []));
    Prepend(false, s0, RunEffects, [Render("b")] + ([RunEffects] + ([Respond(1, current)] + [])));
  }
}
