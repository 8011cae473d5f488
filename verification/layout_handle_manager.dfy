/**
 * The plugin around the page's `addPageLayoutHandles` step. It asks the
 * strategy for a decision. A denied entity-specific request is swallowed
 * and reported as handled. Anything else goes on to the host step with the
 * decision's (possibly rewritten) parameters. Whatever is thrown inside is
 * logged, and the host step is then run with the caller's original inputs.
 *
 * The strategy and the host step (`$proceed`) are oracles: functions that
 * return a value or the error they raised. A run records every call made to
 * the host step and every log record emitted.
 */
module LayoutHandleManager {
  import opened Wrappers
  import opened PhpValues
  import opened LayoutDecisions
  import opened ValidatorStrategies

  /** `shouldAllowEntityLayout(parameters, defaultHandle, entitySpecific)` of whichever strategy is wired in. */
  type DecideFn = (Assoc, Handle, bool) -> Result<LayoutDecision, Error>

  /** The host's own `addPageLayoutHandles(parameters, defaultHandle, entitySpecific)`. */
  type ProceedFn = (Assoc, Handle, bool) -> Result<bool, Error>

  datatype ProceedCall = ProceedCall(parameters: Assoc, defaultHandle: Handle, entitySpecific: bool)

  /** The logger's error record: message and the context array of original inputs. */
  datatype LogRecord = LogRecord(message: string, parameters: Assoc, defaultHandle: Handle, entitySpecific: bool)

  /** Calls made to the host step, log records emitted, and what the plugin returned or let escape. */
  datatype Run = Run(calls: seq<ProceedCall>, logs: seq<LogRecord>, result: Result<bool, Error>)

  const LogPrefix: string := "Error in LayoutHandleManager: "

  /** The catch block: log the error with the original inputs, then run the host step on them. */
  function Fallback(earlier: seq<ProceedCall>, err: Error, proceed: ProceedFn,
                    parameters: Assoc, defaultHandle: Handle, entitySpecific: bool): Run
  {
    Run(earlier + [ProceedCall(parameters, defaultHandle, entitySpecific)],
        [LogRecord(LogPrefix + err.message, parameters, defaultHandle, entitySpecific)],
        proceed(parameters, defaultHandle, entitySpecific))
  }

  /** `aroundAddPageLayoutHandles(subject, proceed, parameters, defaultHandle, entitySpecific)`. */
  function AroundAddPageLayoutHandles(decide: DecideFn, proceed: ProceedFn,
                                      parameters: Assoc, defaultHandle: Handle, entitySpecific: bool): (run: Run)
    // blocking needs both a denial and an entity-specific request; it reports success without proceeding
    ensures (var outcome := decide(parameters, defaultHandle, entitySpecific);
             outcome.Success? && !outcome.value.allowed && entitySpecific ==> run == Run([], [], Success(true)))
    // otherwise the host step is first called with the decision's values and the original flag,
    // and a result it returns is passed back unchanged
    ensures (var outcome := decide(parameters, defaultHandle, entitySpecific);
             outcome.Success? && (outcome.value.allowed || !entitySpecific) ==>
               var forwarded := ProceedCall(outcome.value.parameters, outcome.value.defaultHandle, entitySpecific);
               && 1 <= |run.calls| && run.calls[0] == forwarded
               && (proceed(forwarded.parameters, forwarded.defaultHandle, entitySpecific).Success? ==>
                     run == Run([forwarded], [], proceed(forwarded.parameters, forwarded.defaultHandle, entitySpecific))))
    // a strategy error is logged once with the original inputs, which then go to the host step
    ensures (var outcome := decide(parameters, defaultHandle, entitySpecific);
             outcome.Failure? ==>
               run == Run([ProceedCall(parameters, defaultHandle, entitySpecific)],
                          [LogRecord(LogPrefix + outcome.error.message, parameters, defaultHandle, entitySpecific)],
                          proceed(parameters, defaultHandle, entitySpecific)))
    // the forwarded call is inside the try: when it throws, the error is logged with the original
    // inputs and the host step runs a second time on them, its result being returned
    ensures (var outcome := decide(parameters, defaultHandle, entitySpecific);
             outcome.Success? && (outcome.value.allowed || !entitySpecific) ==>
               var forwarded := ProceedCall(outcome.value.parameters, outcome.value.defaultHandle, entitySpecific);
               var first := proceed(forwarded.parameters, forwarded.defaultHandle, entitySpecific);
               first.Failure? ==>
                 run == Run([forwarded, ProceedCall(parameters, defaultHandle, entitySpecific)],
                            [LogRecord(LogPrefix + first.error.message, parameters, defaultHandle, entitySpecific)],
                            proceed(parameters, defaultHandle, entitySpecific)))
    ensures |run.calls| == 2 ==>
              run.calls[1] == ProceedCall(parameters, defaultHandle, entitySpecific)
              && run.result == proceed(parameters, defaultHandle, entitySpecific)
    // at most two host calls and one log record; every log record carries the original inputs
    ensures |run.calls| <= 2 && |run.logs| <= 1 && |run.logs| <= |run.calls|
    ensures forall i :: 0 <= i < |run.logs| ==>
              run.logs[i].parameters == parameters && run.logs[i].defaultHandle == defaultHandle
              && run.logs[i].entitySpecific == entitySpecific
    ensures forall i :: 0 <= i < |run.calls| ==> run.calls[i].entitySpecific == entitySpecific
    // an internal fault never blocks rendering: the plugin fails only when the host step fails on the originals
    ensures run.result.Failure? ==> proceed(parameters, defaultHandle, entitySpecific).Failure?
  {
    match decide(parameters, defaultHandle, entitySpecific)
    case Failure(err) => Fallback([], err, proceed, parameters, defaultHandle, entitySpecific)
    case Success(decision) =>
      if !decision.IsAllowed() && entitySpecific then
        Run([], [], Success(true))
      else
        var forwarded := ProceedCall(decision.GetParameters(), decision.GetDefaultHandle(), entitySpecific);
        match proceed(forwarded.parameters, forwarded.defaultHandle, entitySpecific)
        case Success(handled) => Run([forwarded], [], Success(handled))
        case Failure(err) => Fallback([forwarded], err, proceed, parameters, defaultHandle, entitySpecific)
  }

  // ---------------------------------------------------------------------------
  // The plugin wired to the validator strategy
  // ---------------------------------------------------------------------------

  /** The validator strategy seen through the strategy interface. */
  function StrategyDecision(strategy: ValidatorStrategy): DecideFn
  {
    (p: Assoc, h: Handle, es: bool) => ShouldAllowEntityLayout(strategy, p, h, es).outcome
  }

  /** A non-entity-specific request always reaches the host step with its original inputs. */
  lemma NonEntitySpecificProceedsWithOriginals(strategy: ValidatorStrategy, proceed: ProceedFn,
                                               parameters: Assoc, defaultHandle: Handle)
    ensures var run := AroundAddPageLayoutHandles(StrategyDecision(strategy), proceed, parameters, defaultHandle, false);
            && 1 <= |run.calls|
            && (forall i :: 0 <= i < |run.calls| ==> run.calls[i] == ProceedCall(parameters, defaultHandle, false))
            && run.result == proceed(parameters, defaultHandle, false)
  {
  }

  /** With both flags off, an entity-specific request is swallowed: the host step never runs. */
  lemma BothFlagsOffBlocksEntitySpecific(strategy: ValidatorStrategy, proceed: ProceedFn,
                                         parameters: Assoc, defaultHandle: Handle)
    requires !strategy.config.entityLayoutEnabled && !strategy.config.onlySpecificValidatorsEnabled
    ensures AroundAddPageLayoutHandles(StrategyDecision(strategy), proceed, parameters, defaultHandle, true)
         == Run([], [], Success(true))
  {
  }

  /**
   * In gated mode, a request nobody allows is swallowed, and one whose
   * deciding validator allows reaches the host step with the values the
   * strategy settled on: the modifier's under the same key, else the originals.
   */
  lemma GatedModeThroughPlugin(strategy: ValidatorStrategy, proceed: ProceedFn,
                               parameters: Assoc, defaultHandle: Handle, j: nat)
    requires !strategy.config.entityLayoutEnabled && strategy.config.onlySpecificValidatorsEnabled
    requires IsFirstDecisive(strategy.validators, parameters, defaultHandle, ContextFor(true), j)
    ensures var run := AroundAddPageLayoutHandles(StrategyDecision(strategy), proceed, parameters, defaultHandle, true);
            && (j == |strategy.validators| ==> run == Run([], [], Success(true)))
            && (j < |strategy.validators|
                && strategy.validators[j].1(parameters, defaultHandle, ContextFor(true)) == Success(true)
                && FindKey(strategy.modifiers, strategy.validators[j].0).None? ==>
                  1 <= |run.calls| && run.calls[0] == ProceedCall(parameters, defaultHandle, true))
            && (j < |strategy.validators|
                && strategy.validators[j].1(parameters, defaultHandle, ContextFor(true)) == Success(true)
                && FindKey(strategy.modifiers, strategy.validators[j].0).Some? ==>
                  var m := FindKey(strategy.modifiers, strategy.validators[j].0).value;
                  var modified := strategy.modifiers[m].1(parameters, defaultHandle, ContextFor(true));
                  modified.Success? ==>
                    1 <= |run.calls|
                    && run.calls[0] == ProceedCall(modified.value.parameters, modified.value.defaultHandle, true))
  {
    GatedModeFollowsReference(strategy, parameters, defaultHandle, j);
  }

  /**
   * A validator or modifier that throws does not break rendering: the error
   * is logged with the original inputs and the host step runs on them.
   */
  lemma ThrowingCollaboratorFailsOpen(strategy: ValidatorStrategy, proceed: ProceedFn,
                                      parameters: Assoc, defaultHandle: Handle)
    requires ShouldAllowEntityLayout(strategy, parameters, defaultHandle, true).outcome.Failure?
    ensures var err := ShouldAllowEntityLayout(strategy, parameters, defaultHandle, true).outcome.error;
            (AroundAddPageLayoutHandles(StrategyDecision(strategy), proceed, parameters, defaultHandle, true)
             == Run([ProceedCall(parameters, defaultHandle, true)],
                    [LogRecord(LogPrefix + err.message, parameters, defaultHandle, true)],
                    proceed(parameters, defaultHandle, true)))
  {
  }
}
