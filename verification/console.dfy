/**
 * The console session: the command line and its history and completion, the
 * stdin line, and the single-flight command scheduler that echoes a command,
 * hands it to the engine, and on completion shows the result, records the
 * command and asks dependent views to refresh when the current address moved.
 *
 * The engine is not modelled: its current address, its completion query and
 * its address formatter arrive as an `Engine` value with every event.
 */
module Console {
  import opened Optional
  import History
  import Completion

  /** An engine address (`RVA`, an unsigned 64-bit integer). */
  newtype Addr = x: int | 0 <= x < 0x1_0000_0000_0000_0000

  /** What the session may ask of the engine at one instant. */
  datatype Engine = Engine(
    offset: Addr,                         // the current address
    complete: string -> seq<string>,      // completion candidates for a whole input line
    addressString: Addr -> string)        // how an address is printed

  /** The one command in flight: its text and the address when it was issued. */
  datatype Pending = Pending(command: string, oldOffset: Addr)

  datatype Session = Session(
    history: History.Store,
    input: string,                        // the command line
    stdinInput: string,                   // the line that feeds the debuggee's stdin
    completer: Completion.Completer,
    task: Option<Pending>,
    inputEnabled: bool,                   // whether the command line accepts typing
    output: seq<string>,                  // the echo and result texts the scheduler appended, in order
    seekRefreshes: nat)                   // how many "address moved" notifications were sent

  /** The freshly constructed console. */
  function Init(): (r: Session)
    ensures Valid(r)
    ensures r.task == None && r.inputEnabled
    ensures r.output == [] && r.seekRefreshes == 0
    ensures r.history.entries == [] && r.history.pos == History.InvalidPos
    ensures r.input == "" && r.stdinInput == ""
    ensures !r.completer.active && r.completer.candidates == []
  {
    Session(History.Empty(), "", "", Completion.Initial(), None, true, [], 0)
  }

  /**
   * What every reachable session keeps true: the history is bounded and its
   * cursor in range, inactive completion offers nothing, and the command
   * line is disabled exactly while a command is in flight.
   */
  ghost predicate Valid(s: Session) {
    && History.Valid(s.history)
    && Completion.Valid(s.completer)
    && (s.inputEnabled <==> s.task.None?)
  }

  /** The echo of an accepted command: `[<address>]> <command>` and a line break. */
  function EchoLine(address: string, command: string): (line: string)
    ensures |line| == |address| + |command| + 5
    ensures line[0] == '[' && line[|line| - 1] == '\n'
    ensures line[1..|address| + 1] == address
    ensures line[|address| + 1..|address| + 4] == "]> "
    ensures line[|address| + 4..|line| - 1] == command
  {
    "[" + address + "]> " + command + "\n"
  }

  /**
   * Submits a command. While another command is in flight nothing at all
   * happens: no echo, no new task, no history. Otherwise the command line is
   * disabled, the echo line is shown, and the command becomes the task in
   * flight together with the address it was issued at.
   */
  function ExecuteCommand(s: Session, command: string, eng: Engine): (r: Session)
    ensures s.task.Some? ==> r == s
    ensures s.task.None? ==>
              && r.task == Some(Pending(command, eng.offset))
              && !r.inputEnabled
              && r.output == s.output + [EchoLine(eng.addressString(eng.offset), command)]
              && r == s.(task := r.task, inputEnabled := false, output := r.output)
    ensures Valid(s) ==> Valid(r)
  {
    if s.task.Some? then s
    else
      var echo := EchoLine(eng.addressString(eng.offset), command);
      s.(inputEnabled := false,
         output := s.output + [echo],
         task := Some(Pending(command, eng.offset)))
  }

  /**
   * The Return key on the command line (also the Execute button). An empty
   * line is ignored. Otherwise the line is submitted and then emptied; when a
   * command is already in flight the submission is dropped and only the
   * emptying happens.
   */
  function ReturnPressed(s: Session, eng: Engine): (r: Session)
    ensures s.input == "" ==> r == s
    ensures s.input != "" && s.task.Some? ==> r == s.(input := "")
    ensures s.input != "" && s.task.None? ==>
              && r.input == ""
              && r.task == Some(Pending(s.input, eng.offset))
              && r.output == s.output + [EchoLine(eng.addressString(eng.offset), s.input)]
              && r.history == s.history
              && r == s.(input := "", task := r.task, inputEnabled := false, output := r.output)
    ensures Valid(s) ==> Valid(r)
  {
    if s.input == "" then s
    else ExecuteCommand(s, s.input, eng).(input := "")
  }

  /** One observable step of the completion handler. */
  datatype Effect =
    | AppendOutput(text: string)
    | AddHistory(command: string)
    | ClearTask
    | EnableInput
    | RefreshSeek

  function ApplyEffect(s: Session, e: Effect): Session {
    match e
    case AppendOutput(text) => s.(output := s.output + [text])
    case AddHistory(command) => s.(history := History.Add(s.history, command))
    case ClearTask => s.(task := None)
    case EnableInput => s.(inputEnabled := true)
    case RefreshSeek => s.(seekRefreshes := s.seekRefreshes + 1)
  }

  function ApplyEffects(s: Session, es: seq<Effect>): Session
    decreases |es|
  {
    if |es| == 0 then s else ApplyEffects(ApplyEffect(s, es[0]), es[1..])
  }

  /**
   * The steps the completion handler of `job` takes when the engine reports
   * `result` and the current address is `now`, in the order it takes them.
   */
  function FinishEffects(job: Pending, result: string, now: Addr): (es: seq<Effect>)
    ensures |es| == if job.oldOffset != now then 5 else 4
    ensures es[0] == AppendOutput(result)
    ensures es[1] == AddHistory(job.command)
    ensures es[2] == ClearTask
    ensures es[3] == EnableInput
    ensures RefreshSeek in es <==> job.oldOffset != now
  {
    var base := [AppendOutput(result), AddHistory(job.command), ClearTask, EnableInput];
    if job.oldOffset != now then base + [RefreshSeek] else base
  }

  /**
   * The engine finished `job` with `result`, the current address now being
   * `now`: the result is shown, the command is recorded in the history
   * (whatever the result, even an empty one), the scheduler is idle again
   * with the command line enabled, and one refresh notification is sent
   * exactly when the address differs from the one the command was issued at.
   */
  function Finish(s: Session, job: Pending, result: string, now: Addr): (r: Session)
    ensures r.output == s.output + [result]
    ensures r.history == History.Add(s.history, job.command)
    ensures |r.history.entries| > 0 && r.history.entries[0] == job.command
    ensures r.history.pos == History.InvalidPos
    ensures |r.history.entries| - 1 <= |s.history.entries| <= |r.history.entries|
    ensures r.task == None && r.inputEnabled
    ensures r.seekRefreshes == s.seekRefreshes + (if job.oldOffset != now then 1 else 0)
    ensures r.input == s.input && r.stdinInput == s.stdinInput && r.completer == s.completer
    ensures Valid(s) ==> Valid(r)
  {
    FinishUnfolds(s, job, result, now);
    ApplyEffects(s, FinishEffects(job, result, now))
  }

  lemma FinishUnfolds(s: Session, job: Pending, result: string, now: Addr)
    ensures ApplyEffects(s, FinishEffects(job, result, now))
         == s.(output := s.output + [result],
               history := History.Add(s.history, job.command),
               task := None,
               inputEnabled := true,
               seekRefreshes := s.seekRefreshes + (if job.oldOffset != now then 1 else 0))
  {
    var base := [AppendOutput(result), AddHistory(job.command), ClearTask, EnableInput];
    var tail: seq<Effect> := if job.oldOffset != now then [RefreshSeek] else [];
    assert FinishEffects(job, result, now) == base + tail;
    ApplyEffectsAppend(s, base, tail);
    var s4 := ApplyEffects(s, base);
    ApplyEffectsCons(s, base[0], base[1..]);
    ApplyEffectsCons(ApplyEffect(s, base[0]), base[1], base[2..]);
    ApplyEffectsCons(ApplyEffect(ApplyEffect(s, base[0]), base[1]), base[2], base[3..]);
    assert s4 == s.(output := s.output + [result],
                    history := History.Add(s.history, job.command),
                    task := None,
                    inputEnabled := true);
    if job.oldOffset != now {
      ApplyEffectsCons(s4, RefreshSeek, []);
    }
  }

  lemma ApplyEffectsAppend(s: Session, xs: seq<Effect>, ys: seq<Effect>)
    ensures ApplyEffects(s, xs + ys) == ApplyEffects(ApplyEffects(s, xs), ys)
    decreases |xs|
  {
    if |xs| > 0 {
      assert (xs + ys)[1..] == xs[1..] + ys;
      ApplyEffectsAppend(ApplyEffect(s, xs[0]), xs[1..], ys);
    } else {
      assert xs + ys == ys;
    }
  }

  lemma ApplyEffectsCons(s: Session, e: Effect, es: seq<Effect>)
    ensures ApplyEffects(s, [e] + es) == ApplyEffects(ApplyEffect(s, e), es)
  {
    assert ([e] + es)[1..] == es;
  }

  /** The state the handler has reached just before its `k`th step. */
  function Before(s: Session, job: Pending, result: string, now: Addr, k: nat): Session
    requires k <= |FinishEffects(job, result, now)|
  {
    ApplyEffects(s, FinishEffects(job, result, now)[..k])
  }

  lemma ApplyEffectsSnoc(s: Session, es: seq<Effect>, e: Effect)
    ensures ApplyEffects(s, es + [e]) == ApplyEffect(ApplyEffects(s, es), e)
  {
    ApplyEffectsAppend(s, es, [e]);
    ApplyEffectsCons(ApplyEffects(s, es), e, []);
  }

  /**
   * The order of the completion handler as observers see it: the command is
   * recorded only after its result is shown, the scheduler goes idle only
   * after the command is recorded, and the refresh notification, when there
   * is one, is the very last step, so no observer is ever told the address
   * moved before the command is visible in both the output and the history
   * and the scheduler is idle.
   */
  lemma {:induction false} FinishOrder(s: Session, job: Pending, result: string, now: Addr)
    ensures var b := Before(s, job, result, now, 1);
            b.output == s.output + [result] && b.history == s.history
    ensures var b := Before(s, job, result, now, 2);
            b.output == s.output + [result] && |b.history.entries| > 0 &&
            b.history.entries[0] == job.command && b.task == s.task
    ensures var b := Before(s, job, result, now, 3);
            b.output == s.output + [result] && |b.history.entries| > 0 &&
            b.history.entries[0] == job.command && b.task == None
    ensures forall k :: 0 <= k < |FinishEffects(job, result, now)| &&
                        FinishEffects(job, result, now)[k] == RefreshSeek ==>
              && k == |FinishEffects(job, result, now)| - 1
              && Before(s, job, result, now, k).output == s.output + [result]
              && |Before(s, job, result, now, k).history.entries| > 0
              && Before(s, job, result, now, k).history.entries[0] == job.command
              && Before(s, job, result, now, k).task == None
              && Before(s, job, result, now, k).inputEnabled
              && Before(s, job, result, now, k).seekRefreshes == s.seekRefreshes
  {
    var es := FinishEffects(job, result, now);
    var b0 := ApplyEffects(s, es[..0]);
    assert es[..0] == [];
    var b1 := ApplyEffects(s, es[..1]);
    ApplyEffectsSnoc(s, es[..0], es[0]);
    assert es[..0] + [es[0]] == es[..1];
    assert b1 == ApplyEffect(s, es[0]);
    ApplyEffectsSnoc(s, es[..1], es[1]);
    assert es[..1] + [es[1]] == es[..2];
    var b2 := ApplyEffects(s, es[..2]);
    assert b2 == ApplyEffect(b1, es[1]);
    ApplyEffectsSnoc(s, es[..2], es[2]);
    assert es[..2] + [es[2]] == es[..3];
    var b3 := ApplyEffects(s, es[..3]);
    assert b3 == ApplyEffect(b2, es[2]);
    ApplyEffectsSnoc(s, es[..3], es[3]);
    assert es[..3] + [es[3]] == es[..4];
    var b4 := ApplyEffects(s, es[..4]);
    assert b4 == ApplyEffect(b3, es[3]);
    forall k | 0 <= k < |es| && es[k] == RefreshSeek
      ensures k == |es| - 1
      ensures Before(s, job, result, now, k) == b4
    {
      assert k == 4;
    }
  }

  /** The Up key on the command line. */
  function HistoryPrev(s: Session): (r: Session)
    ensures |s.history.entries| == 0 ==> r == s
    ensures |s.history.entries| > 0 ==>
              && 0 <= r.history.pos < |s.history.entries|
              && r.input == s.history.entries[r.history.pos]
    ensures |s.history.entries| > 0 ==>
              r.history.pos == History.Min(s.history.pos + 1, |s.history.entries| - 1)
    ensures r == s.(history := r.history, input := r.input)
    ensures r.history.entries == s.history.entries
    ensures Valid(s) ==> Valid(r)
  {
    var nav := History.Prev(s.history);
    s.(history := nav.store, input := ValueOr(nav.shown, s.input))
  }

  /** The Down key on the command line. */
  function HistoryNext(s: Session): (r: Session)
    ensures |s.history.entries| == 0 || s.history.pos == History.InvalidPos ==> r == s
    ensures |s.history.entries| > 0 && s.history.pos != History.InvalidPos ==>
              && r.history.pos < |s.history.entries| - 1
              && (r.history.pos >= 0 ==> r.input == s.history.entries[r.history.pos])
              && (r.history.pos == History.InvalidPos ==> r.input == "")
    ensures |s.history.entries| > 0 && s.history.pos != History.InvalidPos ==>
              r.history.pos == History.Min(s.history.pos, |s.history.entries| - 1) - 1
    ensures r == s.(history := r.history, input := r.input)
    ensures r.history.entries == s.history.entries
    ensures Valid(s) ==> Valid(r)
  {
    var nav := History.Next(s.history);
    s.(history := nav.store, input := ValueOr(nav.shown, s.input))
  }

  /** The user edited the command line to `text`; completion follows the edit. */
  function Edited(s: Session, text: string, eng: Engine): (r: Session)
    ensures r.input == text
    ensures r.completer.active == s.completer.active
    ensures !r.completer.active ==> r.completer.candidates == []
    ensures r.completer.active ==> |r.completer.candidates| == |eng.complete(text)|
    ensures r.completer.active ==> r.completer.candidates == Completion.Rewrite(text, eng.complete(text))
    ensures r == s.(input := text, completer := r.completer)
    ensures Valid(s) ==> Valid(r)
  {
    s.(input := text, completer := Completion.Update(s.completer, text, eng.complete))
  }

  /** The Tab key: completion is switched on for the current line. */
  function TriggerCompletion(s: Session, eng: Engine): (r: Session)
    ensures r.completer.active
    ensures s.completer.active ==> r == s
    ensures !s.completer.active ==>
              r.completer.candidates == Completion.Rewrite(s.input, eng.complete(s.input))
    ensures r == s.(completer := r.completer)
    ensures Valid(s) ==> Valid(r)
  {
    s.(completer := Completion.Trigger(s.completer, s.input, eng.complete))
  }

  /** Leaving the command line switches completion off. */
  function DisableCompletion(s: Session): (r: Session)
    ensures !r.completer.active
    ensures !s.completer.active ==> r == s
    ensures Valid(s) ==> r.completer.candidates == []
    ensures r == s.(completer := r.completer)
  {
    s.(completer := Completion.Disable(s.completer))
  }

  /**
   * The Escape key: completion off, both input lines empty, navigation
   * reset; the history list, the output and any command in flight stay as
   * they are.
   */
  function Clear(s: Session): (r: Session)
    ensures !r.completer.active
    ensures Valid(s) ==> r.completer.candidates == []
    ensures r.input == "" && r.stdinInput == ""
    ensures r.history.pos == History.InvalidPos
    ensures r.history.entries == s.history.entries
    ensures r.task == s.task && r.inputEnabled == s.inputEnabled
    ensures r.output == s.output && r.seekRefreshes == s.seekRefreshes
    ensures Valid(s) ==> Valid(r)
  {
    var d := DisableCompletion(s);
    d.(input := "", stdinInput := "", history := History.Invalidate(d.history))
  }

  /** Everything that can happen to a session, with the engine as it is at that moment. */
  datatype Event =
    | Edit(text: string)
    | Up
    | Down
    | Tab
    | EditingFinished
    | Escape
    | Return
    | TaskFinished(result: string)

  /**
   * One event. The engine reports completion only for a task it was given,
   * so `TaskFinished` arrives only while a command is in flight; at any
   * other time it is ignored.
   */
  function Step(s: Session, ev: Event, eng: Engine): Session {
    match ev
    case Edit(text) => Edited(s, text, eng)
    case Up => HistoryPrev(s)
    case Down => HistoryNext(s)
    case Tab => TriggerCompletion(s, eng)
    case EditingFinished => DisableCompletion(s)
    case Escape => Clear(s)
    case Return => ReturnPressed(s, eng)
    case TaskFinished(result) =>
      if s.task.Some? then Finish(s, s.task.value, result, eng.offset) else s
  }

  /** Every event keeps the session invariant. */
  lemma StepKeepsValid(s: Session, ev: Event, eng: Engine)
    requires Valid(s)
    ensures Valid(Step(s, ev, eng))
  {
  }

  /** A run of events, each paired with the engine as it is when the event happens. */
  function Run(s: Session, evs: seq<(Event, Engine)>): Session
    decreases |evs|
  {
    if |evs| == 0 then s else Run(Step(s, evs[0].0, evs[0].1), evs[1..])
  }

  /**
   * Every session reachable from a fresh console keeps the invariant: the
   * history never holds more than `MaxEntries` commands, the cursor never
   * leaves the list, and at most one command is in flight while the command
   * line is disabled.
   */
  lemma {:induction false} RunKeepsValid(s: Session, evs: seq<(Event, Engine)>)
    requires Valid(s)
    ensures Valid(Run(s, evs))
    ensures |Run(s, evs).history.entries| <= History.MaxEntries
    decreases |evs|
  {
    if |evs| > 0 {
      StepKeepsValid(s, evs[0].0, evs[0].1);
      RunKeepsValid(Step(s, evs[0].0, evs[0].1), evs[1..]);
    }
  }

  /**
   * Single flight: while a command is in flight, pressing Return submits
   * nothing: no echo, no task, no history change; only the line is emptied.
   */
  lemma ReturnWhileRunning(s: Session, eng: Engine)
    requires Valid(s) && !s.inputEnabled
    ensures ReturnPressed(s, eng).output == s.output
    ensures ReturnPressed(s, eng).task == s.task
    ensures ReturnPressed(s, eng).history == s.history
  {
  }
}
