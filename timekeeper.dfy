/**
 * The timekeeper's race-control state machine
 * (website/src/pages/timekeeper/support-functions/stateMachine.ts), as a step function.
 * A step takes one external event to the next stable state together with the
 * entry and exit actions it runs, in order. The transient states (`captureLap`,
 * whose eventless transitions are taken at once, and the final `raceIsOver`,
 * whose completion moves to `RaceIsOver`) never appear as a result.
 */
module Timekeeper {
  /** The stable states; `Running` and `Paused` are the children of `RaceStarted`. */
  datatype State = ReadyToStartRace | Running | Paused | RaceIsOver

  datatype Event = Toggle | End | CaptureLap | CaptureAutLap | Expire | DidNotFinish | Resume

  datatype Context = Context(raceTimeIsExpired: bool, dnf: bool)

  /** The named actions the page implements (timers, overlays, saving the lap, ending the race). */
  datatype Action =
    | ReadyToStart | PublishReadyToStartOverlay
    | StartTimer | PublishRaceInProgressOverlay
    | PauseTimer | PublishRacePausedOverlay
    | CaptureLapAction | EndRace

  datatype Machine = Machine(state: State, context: Context)

  datatype Outcome = Outcome(machine: Machine, actions: seq<Action>)

  function EnterReadyToStartRace(ctx: Context): Outcome {
    Outcome(Machine(ReadyToStartRace, ctx), [ReadyToStart, PublishReadyToStartOverlay])
  }

  /** Entering `running` starts the timer and clears the expiry flag. */
  function EnterRunning(ctx: Context): Outcome {
    Outcome(Machine(Running, ctx.(raceTimeIsExpired := false)), [StartTimer, PublishRaceInProgressOverlay])
  }

  function EnterPaused(ctx: Context): Outcome {
    Outcome(Machine(Paused, ctx), [PauseTimer, PublishRacePausedOverlay])
  }

  /** Reaching `RaceIsOver`, directly or through the final child `raceIsOver`. */
  function EnterRaceIsOver(ctx: Context): Outcome {
    Outcome(Machine(RaceIsOver, ctx), [PauseTimer, EndRace, PublishRacePausedOverlay])
  }

  /** The guards of `captureLap`'s eventless transitions, in their order. */
  predicate ToRunning(ctx: Context) { !ctx.raceTimeIsExpired && !ctx.dnf }
  predicate ToPaused(ctx: Context) { !ctx.raceTimeIsExpired && ctx.dnf }
  predicate ToRaceIsOver(ctx: Context) { ctx.raceTimeIsExpired }

  /**
   * `captureLap`: its entry saves the lap, the first guard that holds picks the
   * target and leaving it clears `dnf`.
   */
  function EnterCaptureLap(ctx: Context): Outcome {
    var left := ctx.(dnf := false);
    var next :=
      if ToRunning(ctx) then EnterRunning(left)
      else if ToPaused(ctx) then EnterPaused(left)
      else EnterRaceIsOver(left);
    Outcome(next.machine, [CaptureLapAction] + next.actions)
  }

  const InitialContext := Context(false, false)

  /** The started machine: `ReadyToStartRace` with both flags false, after its entry actions. */
  function Start(): (o: Outcome)
    ensures o.machine == Machine(ReadyToStartRace, Context(false, false))
    ensures o.actions == [ReadyToStart, PublishReadyToStartOverlay]
  {
    EnterReadyToStartRace(InitialContext)
  }

  /** One external event. An event the current state does not handle changes nothing. */
  function Step(m: Machine, e: Event): Outcome {
    var ctx := m.context;
    var ignored := Outcome(m, []);
    match m.state
    case ReadyToStartRace =>
      (match e
       case Toggle => EnterRunning(ctx)
       case CaptureAutLap => EnterRunning(ctx)
       case End => EnterRaceIsOver(ctx)
       case _ => ignored)
    case Running =>
      (match e
       case Toggle => EnterPaused(ctx)
       case Expire => Outcome(Machine(Running, ctx.(raceTimeIsExpired := true)), [])
       case End => EnterRaceIsOver(ctx)
       case CaptureLap => EnterCaptureLap(ctx)
       case CaptureAutLap => EnterCaptureLap(ctx)
       // `dnf` is set and the raised CAPTURE_LAP is handled, still in `running`, before any other event.
       case DidNotFinish => EnterCaptureLap(ctx.(dnf := true))
       case _ => ignored)
    case Paused =>
      (match e
       case Toggle => EnterRunning(ctx)
       case CaptureAutLap => EnterRunning(ctx)
       case End => EnterRaceIsOver(ctx)
       case _ => ignored)
    case RaceIsOver =>
      (match e
       case End => EnterReadyToStartRace(ctx)
       case Resume => EnterPaused(ctx)
       case _ => ignored)
  }

  /** The machine after a sequence of events. */
  function Run(m: Machine, events: seq<Event>): Machine
    decreases |events|
  {
    if events == [] then m else Run(Step(m, events[0]).machine, events[1..])
  }

  // ----- Properties -----

  /** Exactly one of `captureLap`'s guards holds, whatever the context. */
  lemma CaptureLapGuardsExclusive(ctx: Context)
    ensures ToRunning(ctx) || ToPaused(ctx) || ToRaceIsOver(ctx)
    ensures !(ToRunning(ctx) && ToPaused(ctx))
    ensures !(ToRunning(ctx) && ToRaceIsOver(ctx))
    ensures !(ToPaused(ctx) && ToRaceIsOver(ctx))
  {
  }

  /** Passing through `captureLap` always leaves `dnf` false and saves the lap first. */
  lemma CaptureLapOutcome(ctx: Context)
    ensures var o := EnterCaptureLap(ctx);
      && !o.machine.context.dnf
      && o.actions[0] == CaptureLapAction
      && o.machine.context.raceTimeIsExpired == ctx.raceTimeIsExpired
      && (o.machine.state == Running <==> ToRunning(ctx))
      && (o.machine.state == Paused <==> ToPaused(ctx))
      && (o.machine.state == RaceIsOver <==> ToRaceIsOver(ctx))
  {
  }

  /** From `ReadyToStartRace`: TOGGLE and CAPTURE_AUT_LAP start the race, END ends it. */
  lemma FromReadyToStartRace(ctx: Context, e: Event)
    ensures var o := Step(Machine(ReadyToStartRace, ctx), e);
      o.machine.state == (match e
        case Toggle => Running
        case CaptureAutLap => Running
        case End => RaceIsOver
        case _ => ReadyToStartRace)
  {
  }

  /**
   * From `running`: TOGGLE pauses, END finishes, the lap events pass through
   * `captureLap`, EXPIRE only raises the expiry flag, DID_NOT_FINISH captures a lap
   * and pauses (or finishes once the time has expired).
   */
  lemma FromRunning(ctx: Context, e: Event)
    ensures var o := Step(Machine(Running, ctx), e);
      && (e == Toggle ==> o.machine.state == Paused)
      && (e == End ==> o.machine.state == RaceIsOver)
      && (e == Expire ==> o == Outcome(Machine(Running, ctx.(raceTimeIsExpired := true)), []))
      && (e == CaptureLap || e == CaptureAutLap ==>
            o.machine.state == (if ctx.raceTimeIsExpired then RaceIsOver else if ctx.dnf then Paused else Running))
      && (e == DidNotFinish ==>
            o.machine.state == (if ctx.raceTimeIsExpired then RaceIsOver else Paused)
            && o.actions[0] == CaptureLapAction && !o.machine.context.dnf)
      && (e == Resume ==> o == Outcome(Machine(Running, ctx), []))
  {
  }

  /** From `paused`: TOGGLE or CAPTURE_AUT_LAP resume, END finishes, anything else is ignored. */
  lemma FromPaused(ctx: Context, e: Event)
    ensures var o := Step(Machine(Paused, ctx), e);
      o.machine.state == (match e
        case Toggle => Running
        case CaptureAutLap => Running
        case End => RaceIsOver
        case _ => Paused)
  {
  }

  /** From `RaceIsOver`: END goes back to `ReadyToStartRace`, RESUME re-enters the race paused. */
  lemma FromRaceIsOver(ctx: Context, e: Event)
    ensures var o := Step(Machine(RaceIsOver, ctx), e);
      o.machine.state == (match e
        case End => ReadyToStartRace
        case Resume => Paused
        case _ => RaceIsOver)
      && o.machine.context == ctx
  {
  }

  /** Every entry into `running` (a step that starts the timer) has the expiry flag cleared. */
  lemma EnteringRunningClearsExpiry(m: Machine, e: Event)
    requires StartTimer in Step(m, e).actions
    ensures Step(m, e).machine.state == Running && !Step(m, e).machine.context.raceTimeIsExpired
  {
  }

  /** An event a state does not handle leaves the machine as it was and runs no action. */
  lemma IgnoredEvents(m: Machine, e: Event)
    requires Step(m, e).actions == []
    ensures Step(m, e).machine.state == m.state
    ensures Step(m, e).machine.context.dnf == m.context.dnf
  {
  }

  /** `dnf` is false in every stable state: no step leaves it set. */
  lemma StepKeepsDnfClear(m: Machine, e: Event)
    requires !m.context.dnf
    ensures !Step(m, e).machine.context.dnf
  {
  }

  lemma {:induction false} RunKeepsDnfClear(m: Machine, events: seq<Event>)
    requires !m.context.dnf
    ensures !Run(m, events).context.dnf
    decreases |events|
  {
    if events != [] {
      StepKeepsDnfClear(m, events[0]);
      RunKeepsDnfClear(Step(m, events[0]).machine, events[1..]);
    }
  }

  /** From the start, whatever events arrive, `dnf` is never left set. */
  lemma ReachableDnfClear(events: seq<Event>)
    ensures !Run(Start().machine, events).context.dnf
  {
    RunKeepsDnfClear(Start().machine, events);
  }
}
