/**
  The webhook creation panel: a pure reducer over three phases, the handlers that dispatch to it, and
  the controls each phase enables.  Requests and clipboard writes finish at any later moment.
*/
module WebhookPanel {
  import opened Options

  datatype Created = Created(id: string, secret: string)

  /** `filter` is the JSON text of a custom filter, absent for the default filter. */
  datatype Payload = Payload(url: string, description: Option<string>, filter: Option<string>)

  datatype Field = Url | Description | Filter

  datatype State =
    | Closed
    | Form(url: string, description: string, filter: string, submitting: bool, error: Option<string>)
    | Reveal(created: Created, acknowledged: bool, copied: bool)

  datatype Action =
    | OpenForm
    | CancelForm
    | Update(field: Field, value: string)
    | SubmitStart
    | SubmitSuccess(created: Created)
    | SubmitFailure(message: string)
    | SetAcknowledged(on: bool)
    | MarkCopied
    | Finish

  function Reduce(state: State, action: Action): State {
    match action
    case OpenForm => Form("", "", "", false, None)
    case CancelForm => Closed
    case Update(field, value) =>
      if !state.Form? then state
      else (match field
            case Url => state.(url := value, error := None)
            case Description => state.(description := value, error := None)
            case Filter => state.(filter := value, error := None))
    case SubmitStart => if state.Form? then state.(submitting := true, error := None) else state
    case SubmitSuccess(created) => if state.Form? then Reveal(created, false, false) else state
    case SubmitFailure(message) =>
      if state.Form? then state.(submitting := false, error := Some(message)) else state
    case SetAcknowledged(on) => if state.Reveal? then state.(acknowledged := on) else state
    case MarkCopied => if state.Reveal? then state.(copied := true) else state
    case Finish => if state.Reveal? then Closed else state
  }

  /** What the reducer alone guards: a secret is revealed only by a success that meets the form, which
      then shows exactly that secret, and it leaves only on open, cancel or done.  It does not look at
      the box, nor at a request under way: that is left to the controls. */
  lemma ReducerGuards(state: State, action: Action)
    ensures action.SubmitSuccess? ==>
              (Reduce(state, action) == Reveal(action.created, false, false) && !state.Reveal? <==> state.Form?)
    ensures Reduce(state, action).Reveal? && !action.SubmitSuccess? ==>
              state.Reveal? && Reduce(state, action).created == state.created
    ensures state.Reveal? ==>
              (Reduce(state, action).Reveal? && Reduce(state, action).created == state.created <==>
               !action.OpenForm? && !action.CancelForm? && !action.Finish?)
    ensures state.Form? && state.submitting ==>
              (Reduce(state, action).Form? && Reduce(state, action).submitting <==>
               action.Update? || action.SubmitStart? || action.SetAcknowledged? || action.MarkCopied? || action.Finish?)
  {
  }

  // ----- Trimming ------------------------------------------------------------------------------

  /** The white space and line terminators that `trim` removes. */
  predicate IsSpace(c: char) {
    var n := c as int;
    9 <= n <= 13 || n == 0x20 || n == 0xA0 || n == 0x1680 || 0x2000 <= n <= 0x200A ||
    n == 0x2028 || n == 0x2029 || n == 0x202F || n == 0x205F || n == 0x3000 || n == 0xFEFF
  }

  function Trim(s: string): string {
    if s == "" then ""
    else if IsSpace(s[0]) then Trim(s[1..])
    else if IsSpace(s[|s| - 1]) then Trim(s[..|s| - 1])
    else s
  }

  ghost predicate AllSpace(s: string) {
    forall i :: 0 <= i < |s| ==> IsSpace(s[i])
  }

  lemma CutLeft(s: string, left: string, rest: string)
    requires s != "" && IsSpace(s[0]) && s[1..] == left + rest && AllSpace(left)
    ensures s == ([s[0]] + left) + rest && AllSpace([s[0]] + left)
  {
    assert s == [s[0]] + s[1..];
  }

  lemma CutRight(s: string, rest: string, right: string)
    requires s != "" && IsSpace(s[|s| - 1]) && s[..|s| - 1] == rest + right && AllSpace(right)
    ensures s == rest + (right + [s[|s| - 1]]) && AllSpace(right + [s[|s| - 1]])
  {
    assert s == s[..|s| - 1] + [s[|s| - 1]];
  }

  /** What is cut off is white space, and what remains neither begins nor ends with it. */
  lemma {:induction false} TrimCutsSpace(s: string) returns (left: string, right: string)
    ensures s == left + Trim(s) + right && AllSpace(left) && AllSpace(right)
    ensures Trim(s) != "" ==> !IsSpace(Trim(s)[0]) && !IsSpace(Trim(s)[|Trim(s)| - 1])
  {
    left, right := "", "";
    if s == "" {
    } else if IsSpace(s[0]) {
      left, right := TrimCutsSpace(s[1..]);
      assert left + Trim(s) + right == left + (Trim(s) + right);
      CutLeft(s, left, Trim(s) + right);
      left := [s[0]] + left;
      assert left + (Trim(s) + right) == left + Trim(s) + right;
    } else if IsSpace(s[|s| - 1]) {
      left, right := TrimCutsSpace(s[..|s| - 1]);
      CutRight(s, left + Trim(s), right);
      right := right + [s[|s| - 1]];
    }
  }

  // ----- The whole system ----------------------------------------------------------------------

  /** The panel, the requests sent and not yet answered, and the clipboard writes under way. */
  datatype System = System(state: State, inFlight: seq<Payload>, copying: seq<string>)

  datatype Event =
    | Open
    | Cancel
    | Edit(field: Field, value: string)
    | Submit
    | Succeed(request: nat, created: Created)
    | Fail(request: nat, message: string)
    | Acknowledge(on: bool)
    | Copy
    | CopyEnds(write: nat, ok: bool)
    | Done

  const INITIAL := System(Closed, [], [])

  function Drop<T>(s: seq<T>, i: nat): seq<T>
    requires i < |s|
  {
    s[..i] + s[i + 1..]
  }

  /** Which controls are rendered and not disabled; answers arrive only for what is outstanding. */
  predicate Enabled(sys: System, event: Event) {
    match event
    case Open => sys.state.Closed?
    case Cancel => sys.state.Form? && !sys.state.submitting
    case Edit(_, _) => sys.state.Form?
    case Submit => sys.state.Form? && Trim(sys.state.url) != "" && !sys.state.submitting
    case Succeed(request, _) => request < |sys.inFlight|
    case Fail(request, _) => request < |sys.inFlight|
    case Acknowledge(_) => sys.state.Reveal?
    case Copy => sys.state.Reveal?
    case CopyEnds(write, _) => write < |sys.copying|
    case Done => sys.state.Reveal? && sys.state.acknowledged
  }

  /** The handler of the form.  `objection` is the parser: the reason a filter text is not a JSON
      object, if there is one. */
  function AfterSubmit(sys: System, objection: string -> Option<string>): System {
    if !sys.state.Form? || sys.state.submitting then sys
    else
      var url, filter := Trim(sys.state.url), Trim(sys.state.filter);
      if url == "" then sys.(state := Reduce(sys.state, SubmitFailure("URL is required")))
      else if filter != "" && objection(filter).Some? then
        sys.(state := Reduce(sys.state, SubmitFailure("filter: " + objection(filter).value)))
      else
        var description := if Trim(sys.state.description) == "" then None else Some(sys.state.description);
        sys.(state := Reduce(sys.state, SubmitStart),
             inFlight := sys.inFlight + [Payload(url, description, if filter == "" then None else Some(filter))])
  }

  function After(sys: System, event: Event, objection: string -> Option<string>): System
    requires Enabled(sys, event)
  {
    match event
    case Open => sys.(state := Reduce(sys.state, OpenForm))
    case Cancel => sys.(state := Reduce(sys.state, CancelForm))
    case Edit(field, value) => sys.(state := Reduce(sys.state, Update(field, value)))
    case Submit => AfterSubmit(sys, objection)
    case Succeed(request, created) =>
      sys.(state := Reduce(sys.state, SubmitSuccess(created)), inFlight := Drop(sys.inFlight, request))
    case Fail(request, message) =>
      sys.(state := Reduce(sys.state, SubmitFailure(message)), inFlight := Drop(sys.inFlight, request))
    case Acknowledge(on) => sys.(state := Reduce(sys.state, SetAcknowledged(on)))
    case Copy => sys.(copying := sys.copying + [sys.state.created.secret])
    case CopyEnds(write, ok) =>
      sys.(state := if ok then Reduce(sys.state, MarkCopied) else sys.state, copying := Drop(sys.copying, write))
    case Done => sys.(state := Reduce(sys.state, Finish))
  }

  // ----- The component -------------------------------------------------------------------------

  class Panel {
    var state: State
    var inFlight: seq<Payload>
    var copying: seq<string>
    const objection: string -> Option<string>

    ghost function Snapshot(): System
      reads this
    {
      System(state, inFlight, copying)
    }

    constructor (objection: string -> Option<string>)
      ensures Snapshot() == INITIAL && this.objection == objection
    {
      state, inFlight, copying := Closed, [], [];
      this.objection := objection;
    }

    method Dispatch(action: Action)
      modifies this`state
      ensures state == Reduce(old(state), action)
    {
      state := Reduce(state, action);
    }

    /** `handleSubmit` up to the request; safe in every state, whatever is rendered. */
    method HandleSubmit()
      modifies this
      ensures Snapshot() == AfterSubmit(old(Snapshot()), objection)
    {
      if !state.Form? || state.submitting {
        return;
      }
      var url := Trim(state.url);
      if url == "" {
        Dispatch(SubmitFailure("URL is required"));
        return;
      }
      var filterPayload := None;
      var filterTrimmed := Trim(state.filter);
      if filterTrimmed != "" {
        var problem := objection(filterTrimmed);
        if problem.Some? {
          Dispatch(SubmitFailure("filter: " + problem.value));
          return;
        }
        filterPayload := Some(filterTrimmed);
      }
      var description := if Trim(state.description) == "" then None else Some(state.description);
      Dispatch(SubmitStart);
      inFlight := inFlight + [Payload(url, description, filterPayload)];
    }

    /** `handleSubmit` after the request. */
    method HandleAnswer(request: nat, created: Option<Created>, message: string)
      requires request < |inFlight|
      modifies this
      ensures Snapshot() == After(old(Snapshot()),
                                  if created.Some? then Succeed(request, created.value) else Fail(request, message),
                                  objection)
    {
      inFlight := Drop(inFlight, request);
      if created.Some? {
        Dispatch(SubmitSuccess(created.value));
      } else {
        Dispatch(SubmitFailure(message));
      }
    }

    method HandleCopyEnds(write: nat, ok: bool)
      requires write < |copying|
      modifies this
      ensures Snapshot() == After(old(Snapshot()), CopyEnds(write, ok), objection)
    {
      copying := Drop(copying, write);
      if ok {
        Dispatch(MarkCopied);
      }
    }
  }

  // ----- Runs ----------------------------------------------------------------------------------

  ghost predicate IsRun(sys: System, events: seq<Event>, objection: string -> Option<string>)
    decreases events
  {
    events != [] ==>
      Enabled(sys, events[0]) && IsRun(After(sys, events[0], objection), events[1..], objection)
  }

  ghost function Final(sys: System, events: seq<Event>, objection: string -> Option<string>): System
    requires IsRun(sys, events, objection)
    decreases events
  {
    if events == [] then sys else Final(After(sys, events[0], objection), events[1..], objection)
  }

  /** One request at most, and it is in flight exactly while the panel is a submitting form. */
  ghost predicate Sound(sys: System) {
    |sys.inFlight| == if sys.state.Form? && sys.state.submitting then 1 else 0
  }

  lemma StepKeepsSound(sys: System, event: Event, objection: string -> Option<string>)
    requires Sound(sys) && Enabled(sys, event)
    ensures Sound(After(sys, event, objection))
    ensures event.Succeed? ==> After(sys, event, objection).state == Reveal(event.created, false, false)
    ensures event.Fail? ==> After(sys, event, objection).state.Form?
  {
  }

  lemma {:induction false} RunsStaySound(sys: System, events: seq<Event>, objection: string -> Option<string>)
    requires Sound(sys) && IsRun(sys, events, objection)
    ensures Sound(Final(sys, events, objection))
    decreases events
  {
    if events == [] {
    } else {
      StepKeepsSound(sys, events[0], objection);
      RunsStaySound(After(sys, events[0], objection), events[1..], objection);
    }
  }

  // ----- What a submission sends ---------------------------------------------------------------

  /** The outcome of pressing Create on an idle form: a blank URL or a bad filter is reported and nothing
      is sent; otherwise one request goes out, with the URL trimmed, a blank description left out, and
      the default filter exactly when the filter is blank. */
  lemma SubmitOutcome(sys: System, objection: string -> Option<string>)
    requires sys.state.Form? && !sys.state.submitting
    ensures var f, sys' := sys.state, AfterSubmit(sys, objection);
            var url, filter := Trim(f.url), Trim(f.filter);
            if url == "" then sys' == sys.(state := f.(error := Some("URL is required")))
            else if filter != "" && objection(filter).Some? then
              sys' == sys.(state := f.(error := Some("filter: " + objection(filter).value)))
            else
              sys'.state == f.(submitting := true, error := None) && sys'.copying == sys.copying &&
              |sys'.inFlight| == |sys.inFlight| + 1 && sys'.inFlight[..|sys.inFlight|] == sys.inFlight &&
              Sends(sys'.inFlight[|sys.inFlight|], url, filter, f.description)
  {
    BlankIsAllSpace(sys.state.description);
  }

  ghost predicate Sends(p: Payload, url: string, filter: string, description: string) {
    p.url == url &&
    (filter == "" ==> p.filter == None) && (filter != "" ==> p.filter == Some(filter)) &&
    (AllSpace(description) ==> p.description == None) && (!AllSpace(description) ==> p.description == Some(description))
  }

  lemma {:induction false} BlankIsAllSpace(s: string)
    ensures Trim(s) == "" <==> AllSpace(s)
  {
    if s == "" {
    } else if IsSpace(s[0]) {
      BlankIsAllSpace(s[1..]);
      assert s == [s[0]] + s[1..];
    } else if IsSpace(s[|s| - 1]) {
      BlankIsAllSpace(s[..|s| - 1]);
      assert s[..|s| - 1][0] == s[0];
    }
  }

  /** What was last typed into a field since the form was last opened. */
  function LastEdit(events: seq<Event>, field: Field): string {
    if events == [] then ""
    else
      var event := events[|events| - 1];
      if event.Open? then ""
      else if event.Edit? && event.field == field then event.value
      else LastEdit(events[..|events| - 1], field)
  }

  lemma LastStep(events: seq<Event>, objection: string -> Option<string>)
    requires events != [] && IsRun(INITIAL, events, objection)
    ensures var before := events[..|events| - 1];
            IsRun(INITIAL, before, objection) &&
            Enabled(Final(INITIAL, before, objection), events[|events| - 1]) &&
            Final(INITIAL, events, objection) ==
              After(Final(INITIAL, before, objection), events[|events| - 1], objection)
  {
    var last := |events| - 1;
    SplitRun(INITIAL, events, last, objection);
    assert events[last..] == [events[last]] && events[last..][1..] == [];
  }

  function Text(form: State, field: Field): string
    requires form.Form?
  {
    match field
    case Url => form.url
    case Description => form.description
    case Filter => form.filter
  }

  lemma TextAfter(sys: System, event: Event, objection: string -> Option<string>, field: Field)
    requires Enabled(sys, event) && After(sys, event, objection).state.Form?
    ensures event.Open? || sys.state.Form?
    ensures Text(After(sys, event, objection).state, field) ==
              if event.Open? then "" else if event.Edit? && event.field == field then event.value
              else Text(sys.state, field)
  {
    match field
    case Url =>
    case Description =>
    case Filter =>
  }

  lemma {:induction false} TextIsLastEdit(events: seq<Event>, objection: string -> Option<string>, field: Field)
    requires IsRun(INITIAL, events, objection) && Final(INITIAL, events, objection).state.Form?
    ensures Text(Final(INITIAL, events, objection).state, field) == LastEdit(events, field)
    decreases |events|
  {
    if events == [] {
    } else {
      var before := events[..|events| - 1];
      LastStep(events, objection);
      TextAfter(Final(INITIAL, before, objection), events[|events| - 1], objection, field);
      if Final(INITIAL, before, objection).state.Form? {
        TextIsLastEdit(before, objection, field);
      }
    }
  }

  /** In every run, the form holds what was last typed, through submissions and failures. */
  lemma FormHoldsLastEdits(events: seq<Event>, objection: string -> Option<string>)
    requires IsRun(INITIAL, events, objection) && Final(INITIAL, events, objection).state.Form?
    ensures var f := Final(INITIAL, events, objection).state;
            f.url == LastEdit(events, Url) && f.description == LastEdit(events, Description) &&
            f.filter == LastEdit(events, Filter)
  {
    TextIsLastEdit(events, objection, Url);
    TextIsLastEdit(events, objection, Description);
    TextIsLastEdit(events, objection, Filter);
  }

  /** In every run, a request that is sent carries the last edits: the trimmed URL, the trimmed filter or
      the default one if it is blank, and the description unless it is blank. */
  lemma RequestCarriesLastEdits(events: seq<Event>, objection: string -> Option<string>)
    requires IsRun(INITIAL, events, objection) && events != [] && events[|events| - 1].Submit?
    ensures var s, filter := Final(INITIAL, events, objection), Trim(LastEdit(events, Filter));
            if filter != "" && objection(filter).Some? then s.inFlight == [] && s.state.Form? && !s.state.submitting
            else |s.inFlight| == 1 && s.state.Form? && s.state.submitting &&
                 Sends(s.inFlight[0], Trim(LastEdit(events, Url)), filter, LastEdit(events, Description))
  {
    var before := events[..|events| - 1];
    LastStep(events, objection);
    var idle := Final(INITIAL, before, objection);
    FormHoldsLastEdits(before, objection);
    RunsStaySound(INITIAL, before, objection);
    BlankIsAllSpace(idle.state.description);
    SubmitOutcome(idle, objection);
  }

  ghost predicate Shows(sys: System, created: Created) {
    sys.state.Reveal? && sys.state.created == created
  }

  lemma {:induction false} SplitRun(sys: System, events: seq<Event>, k: nat, objection: string -> Option<string>)
    requires IsRun(sys, events, objection) && k <= |events|
    ensures IsRun(sys, events[..k], objection)
    ensures IsRun(Final(sys, events[..k], objection), events[k..], objection)
    ensures Final(Final(sys, events[..k], objection), events[k..], objection) == Final(sys, events, objection)
    decreases events
  {
    if k == 0 {
      assert events[..0] == [] && events[0..] == events;
    } else {
      assert events[..k][1..] == events[1..][..k - 1] && events[k..] == events[1..][k - 1..];
      SplitRun(After(sys, events[0], objection), events[1..], k - 1, objection);
    }
  }

  /** In one step the secret leaves the panel exactly when Done is pressed, which needs the tick. */
  lemma SecretLeavesOnDone(sys: System, event: Event, objection: string -> Option<string>)
    requires Sound(sys) && Enabled(sys, event) && sys.state.Reveal?
    ensures !Shows(After(sys, event, objection), sys.state.created) <==> event.Done?
    ensures event.Done? ==> sys.state.acknowledged
  {
  }

  /** Event `d` is Done, pressed while `created` is on screen and its box is ticked. */
  ghost predicate DismissedAt(sys: System, events: seq<Event>, d: nat, created: Created,
                              objection: string -> Option<string>)
    requires IsRun(sys, events, objection)
  {
    && d < |events| && events[d] == Done
    && IsRun(sys, events[..d], objection)
    && Shows(Final(sys, events[..d], objection), created)
    && Final(sys, events[..d], objection).state.acknowledged
  }

  lemma {:induction false} StaysUntilDismissed(sys: System, events: seq<Event>, created: Created,
                                               objection: string -> Option<string>)
    requires Sound(sys) && Shows(sys, created) && IsRun(sys, events, objection)
    ensures Shows(Final(sys, events, objection), created)
      || exists d: nat :: DismissedAt(sys, events, d, created, objection)
    decreases events
  {
    if events == [] {
    } else {
      var next := After(sys, events[0], objection);
      SecretLeavesOnDone(sys, events[0], objection);
      StepKeepsSound(sys, events[0], objection);
      if events[0] == Done {
        assert events[..0] == [];
        assert DismissedAt(sys, events, 0, created, objection);
      } else {
        StaysUntilDismissed(next, events[1..], created, objection);
        if !Shows(Final(next, events[1..], objection), created) {
          var d: nat :| DismissedAt(next, events[1..], d, created, objection);
          assert events[..d + 1][1..] == events[1..][..d];
          assert DismissedAt(sys, events, d + 1, created, objection);
        }
      }
    }
  }

  lemma AnswerIsShown(events: seq<Event>, k: nat, objection: string -> Option<string>)
    requires IsRun(INITIAL, events, objection) && k < |events| && events[k].Succeed?
    ensures IsRun(INITIAL, events[..k + 1], objection)
    ensures Final(INITIAL, events[..k + 1], objection).state == Reveal(events[k].created, false, false)
    ensures Sound(Final(INITIAL, events[..k + 1], objection))
  {
    SplitRun(INITIAL, events, k, objection);
    SplitRun(INITIAL, events, k + 1, objection);
    var before := Final(INITIAL, events[..k], objection);
    RunsStaySound(INITIAL, events[..k], objection);
    StepKeepsSound(before, events[k], objection);
    SplitRun(INITIAL, events[..k + 1], k, objection);
    assert events[..k + 1][..k] == events[..k] && events[..k + 1][k..] == [events[k]];
    assert Final(INITIAL, events[..k + 1], objection) == After(before, events[k], objection);
  }

  lemma DismissedLater(events: seq<Event>, k: nat, d: nat, created: Created, objection: string -> Option<string>)
    requires IsRun(INITIAL, events, objection) && k <= |events|
    requires IsRun(INITIAL, events[..k], objection)
    requires IsRun(Final(INITIAL, events[..k], objection), events[k..], objection)
    requires DismissedAt(Final(INITIAL, events[..k], objection), events[k..], d, created, objection)
    ensures DismissedAt(INITIAL, events, k + d, created, objection)
  {
    var prefix := events[..k + d];
    SplitRun(INITIAL, events, k + d, objection);
    SplitRun(INITIAL, prefix, k, objection);
    assert prefix[..k] == events[..k] && prefix[k..] == events[k..][..d];
  }

  /** Whatever the run, every secret the server returns is put on screen at once, and stays there
      until Done is pressed on it with the box ticked. */
  lemma EverySecretIsShown(events: seq<Event>, k: nat, objection: string -> Option<string>)
    requires IsRun(INITIAL, events, objection) && k < |events| && events[k].Succeed?
    ensures IsRun(INITIAL, events[..k + 1], objection)
    ensures Final(INITIAL, events[..k + 1], objection).state == Reveal(events[k].created, false, false)
    ensures Shows(Final(INITIAL, events, objection), events[k].created)
      || exists d: nat :: k < d && DismissedAt(INITIAL, events, d, events[k].created, objection)
  {
    var created := events[k].created;
    AnswerIsShown(events, k, objection);
    SplitRun(INITIAL, events, k + 1, objection);
    var shown := Final(INITIAL, events[..k + 1], objection);
    StaysUntilDismissed(shown, events[k + 1..], created, objection);
    if !Shows(Final(INITIAL, events, objection), created) {
      var d: nat :| DismissedAt(shown, events[k + 1..], d, created, objection);
      DismissedLater(events, k + 1, d, created, objection);
    }
  }

  /** The state of the box is the last click on it. */
  function LastTick(ticked: bool, events: seq<Event>): bool
    decreases events
  {
    if events == [] then ticked
    else LastTick(if events[0].Acknowledge? then events[0].on else ticked, events[1..])
  }

  predicate Succeeded(event: Event) {
    event.CopyEnds? && event.ok
  }

  function AnyCopied(copied: bool, events: seq<Event>): bool {
    copied || exists event :: event in events && Succeeded(event)
  }

  lemma AnyCopiedNext(copied: bool, events: seq<Event>)
    requires events != []
    ensures AnyCopied(copied, events) == AnyCopied(copied || Succeeded(events[0]), events[1..])
  {
    assert events == [events[0]] + events[1..];
  }

  /** Between the answer and Done, the box is what was last clicked, and the mark says that some
      clipboard write succeeded. */
  lemma {:induction false} RevealFollowsClicks(sys: System, events: seq<Event>, objection: string -> Option<string>)
    requires Sound(sys) && sys.state.Reveal? && IsRun(sys, events, objection) && Done !in events
    ensures Final(sys, events, objection).state == Reveal(sys.state.created,
                                                          LastTick(sys.state.acknowledged, events),
                                                          AnyCopied(sys.state.copied, events))
    decreases events
  {
    if events == [] {
    } else {
      StepKeepsSound(sys, events[0], objection);
      RevealFollowsClicks(After(sys, events[0], objection), events[1..], objection);
      AnyCopiedNext(sys.state.copied, events);
    }
  }

  // ----- The copied mark -----------------------------------------------------------------------

  ghost predicate OwnWrites(sys: System)
    requires sys.state.Reveal?
  {
    forall i :: 0 <= i < |sys.copying| ==> sys.copying[i] == sys.state.created.secret
  }

  /** Some write of the secret on screen succeeds in the run. */
  ghost predicate CopiesOwn(sys: System, events: seq<Event>, objection: string -> Option<string>)
    requires IsRun(sys, events, objection)
    decreases events
  {
    events != [] &&
    ((Succeeded(events[0]) && sys.state.Reveal? && sys.copying[events[0].write] == sys.state.created.secret) ||
     CopiesOwn(After(sys, events[0], objection), events[1..], objection))
  }

  lemma {:induction false} MarkFollowsOwnCopy(sys: System, events: seq<Event>, objection: string -> Option<string>)
    requires Sound(sys) && sys.state.Reveal? && IsRun(sys, events, objection) && Done !in events
    requires !sys.state.copied && OwnWrites(sys)
    ensures Final(sys, events, objection).state.Reveal?
    ensures Final(sys, events, objection).state.copied <==> CopiesOwn(sys, events, objection)
    decreases events
  {
    RevealFollowsClicks(sys, events, objection);
    if events == [] {
    } else if Succeeded(events[0]) {
      assert events[0] in events;
    } else {
      var next := After(sys, events[0], objection);
      SecretLeavesOnDone(sys, events[0], objection);
      assert OwnWrites(next);
      MarkFollowsOwnCopy(next, events[1..], objection);
    }
  }

  /** A mark, if there is one when the run ends, tells the truth about the run. */
  ghost predicate IsHonest(sys: System, events: seq<Event>, objection: string -> Option<string>)
    requires IsRun(sys, events, objection)
  {
    var state := Final(sys, events, objection).state;
    state.Reveal? && state.copied ==> CopiesOwn(sys, events, objection)
  }

  /** From a revealed secret on, up to Done: a mark always means that a write of this secret succeeded
      meanwhile if and only if there is no mark yet and no write of another secret is under way. */
  lemma MarkIsHonest(sys: System, objection: string -> Option<string>)
    requires Sound(sys) && sys.state.Reveal?
    ensures (forall events :: IsRun(sys, events, objection) && Done !in events ==> IsHonest(sys, events, objection))
            <==> !sys.state.copied && OwnWrites(sys)
  {
    if !sys.state.copied && OwnWrites(sys) {
      forall events | IsRun(sys, events, objection) && Done !in events ensures IsHonest(sys, events, objection) {
        MarkFollowsOwnCopy(sys, events, objection);
      }
    } else if sys.state.copied {
      assert IsRun(sys, [], objection) && !IsHonest(sys, [], objection);
    } else {
      var i :| 0 <= i < |sys.copying| && sys.copying[i] != sys.state.created.secret;
      ForeignWriteLies(sys, i, objection);
    }
  }

  lemma ForeignWriteLies(sys: System, write: nat, objection: string -> Option<string>)
    requires sys.state.Reveal? && write < |sys.copying| && sys.copying[write] != sys.state.created.secret
    ensures IsRun(sys, [CopyEnds(write, true)], objection) && !IsHonest(sys, [CopyEnds(write, true)], objection)
  {
    var run := [CopyEnds(write, true)];
    var next := After(sys, run[0], objection);
    assert run[1..] == [];
    assert IsRun(next, [], objection) && !CopiesOwn(next, [], objection);
    assert IsRun(sys, run, objection) && Final(sys, run, objection) == next;
    assert next.state.copied && !CopiesOwn(sys, run, objection);
  }

  lemma {:induction false} JoinRuns(sys: System, first: seq<Event>, rest: seq<Event>,
                                    objection: string -> Option<string>)
    requires IsRun(sys, first, objection) && IsRun(Final(sys, first, objection), rest, objection)
    ensures IsRun(sys, first + rest, objection)
    ensures Final(sys, first + rest, objection) == Final(Final(sys, first, objection), rest, objection)
    decreases first
  {
    if first == [] {
      assert first + rest == rest;
    } else {
      assert (first + rest)[1..] == first[1..] + rest;
      JoinRuns(After(sys, first[0], objection), first[1..], rest, objection);
    }
  }

  lemma Prepend(sys: System, event: Event, rest: seq<Event>, objection: string -> Option<string>)
    requires Enabled(sys, event) && IsRun(After(sys, event, objection), rest, objection)
    ensures IsRun(sys, [event] + rest, objection)
    ensures Final(sys, [event] + rest, objection) == Final(After(sys, event, objection), rest, objection)
  {
    assert ([event] + rest)[1..] == rest;
  }

  function Registering(created: Created): seq<Event> {
    [Open] + ([Edit(Url, "u")] + ([Submit] + ([Succeed(0, created)] + [])))
  }

  const LEAVING: seq<Event> := [Copy] + ([Acknowledge(true)] + ([Done] + []))

  lemma RegisteringReveals(copying: seq<string>, created: Created, objection: string -> Option<string>)
    ensures IsRun(System(Closed, [], copying), Registering(created), objection)
    ensures Final(System(Closed, [], copying), Registering(created), objection)
      == System(Reveal(created, false, false), [], copying)
  {
    assert Trim("u") == "u" && Trim("") == "";
    var closed := System(Closed, [], copying);
    var blank := After(closed, Open, objection);
    var typed := After(blank, Edit(Url, "u"), objection);
    var sent := After(typed, Submit, objection);
    assert sent == System(Form("u", "", "", true, None), [Payload("u", None, None)], copying);
    assert Drop(sent.inFlight, 0) == [];
    Prepend(sent, Succeed(0, created), [], objection);
    Prepend(typed, Submit, [Succeed(0, created)] + [], objection);
    Prepend(blank, Edit(Url, "u"), [Submit] + ([Succeed(0, created)] + []), objection);
    Prepend(closed, Open, [Edit(Url, "u")] + ([Submit] + ([Succeed(0, created)] + [])), objection);
  }

  lemma LeavingCloses(created: Created, objection: string -> Option<string>)
    ensures IsRun(System(Reveal(created, false, false), [], []), LEAVING, objection)
    ensures Final(System(Reveal(created, false, false), [], []), LEAVING, objection)
      == System(Closed, [], [created.secret])
  {
    var shown := System(Reveal(created, false, false), [], []);
    var copying := After(shown, Copy, objection);
    var ticked := After(copying, Acknowledge(true), objection);
    Prepend(ticked, Done, [], objection);
    Prepend(copying, Acknowledge(true), [Done] + [], objection);
    Prepend(shown, Copy, [Acknowledge(true)] + ([Done] + []), objection);
  }

  function LandsLate(created: Created): seq<Event> {
    Registering(created) + [CopyEnds(0, true)]
  }

  lemma WriteLandsLate(secret: string, created: Created, objection: string -> Option<string>)
    ensures IsRun(System(Closed, [], [secret]), LandsLate(created), objection)
    ensures Final(System(Closed, [], [secret]), LandsLate(created), objection)
      == System(Reveal(created, false, true), [], [])
  {
    RegisteringReveals([secret], created, objection);
    var end := [CopyEnds(0, true)];
    assert end[1..] == [];
    assert IsRun(System(Reveal(created, false, false), [], [secret]), end, objection);
    JoinRuns(System(Closed, [], [secret]), Registering(created), end, objection);
  }

  /** Reachable from the closed panel: a slow write of a first secret, dismissed meanwhile, marks a
      second secret as copied although Copy was never pressed on it. */
  lemma StaleCopyMarks(earlier: Created, later: Created, objection: string -> Option<string>)
    ensures IsRun(INITIAL, Registering(earlier) + (LEAVING + LandsLate(later)), objection)
    ensures Final(INITIAL, Registering(earlier) + (LEAVING + LandsLate(later)), objection)
      == System(Reveal(later, false, true), [], [])
    ensures Copy !in LandsLate(later)
  {
    RegisteringReveals([], earlier, objection);
    LeavingCloses(earlier, objection);
    WriteLandsLate(earlier.secret, later, objection);
    JoinRuns(System(Reveal(earlier, false, false), [], []), LEAVING, LandsLate(later), objection);
    JoinRuns(INITIAL, Registering(earlier), LEAVING + LandsLate(later), objection);
  }
}
