/**
 * The validator strategy: construction-time registry checks and the
 * four-way cascade that decides whether entity-specific layout handles
 * may take part in a page render.
 *
 * Collaborators are pure functions returning a `Result`; a `Failure` stands
 * for an exception they throw, which the strategy does not catch. Each
 * evaluation also returns a trace of the collaborator calls it made, in
 * order, so that "was consulted", "was never called" and "received these
 * arguments" are statements about values.
 */
module ValidatorStrategies {
  import opened Wrappers
  import opened PhpValues
  import opened LayoutDecisions
  import opened ModificationResults

  /** `isRequestAllowed(parameters, defaultHandle, context)`. */
  type ValidatorFn = (Assoc, Handle, Assoc) -> Result<bool, Error>

  /** `modifyParameters(parameters, defaultHandle, context)`. */
  type ModifierFn = (Assoc, Handle, Assoc) -> Result<ModificationResult, Error>

  /** The two configuration flags, read through the configuration interface. */
  datatype Config = Config(entityLayoutEnabled: bool, onlySpecificValidatorsEnabled: bool)

  /**
   * A registry entry as the host's wiring supplies it: an object of some
   * class, which may implement the validator interface, the modifier
   * interface, both or neither; or a value that is not an object at all.
   */
  datatype Entry =
    | Component(className: string, asValidator: Option<ValidatorFn>, asModifier: Option<ModifierFn>)
    | Plain(value: Value)

  /** `$entry instanceof RequestValidatorInterface`, with the capability it grants. */
  function ImplementsValidator(entry: Entry): Option<ValidatorFn>
  {
    if entry.Component? then entry.asValidator else None
  }

  /** `$entry instanceof ParameterModifierInterface`, with the capability it grants. */
  function ImplementsModifier(entry: Entry): Option<ModifierFn>
  {
    if entry.Component? then entry.asModifier else None
  }

  datatype Registry = ValidatorRegistry | ModifierRegistry

  datatype ConstructionError =
      /** The InvalidArgumentException naming the registry, the key and what was given. */
    | InvalidEntry(registry: Registry, key: string, given: string)
      /** A TypeError raised while building that message. */
    | TypeError(given: string)

  /** A strategy whose registries passed the construction checks. */
  datatype ValidatorStrategy = ValidatorStrategy(
    config: Config,
    validators: seq<(string, ValidatorFn)>,
    modifiers: seq<(string, ModifierFn)>)

  /** One call the strategy made to a collaborator, with the arguments it passed. */
  datatype Event =
    | ReadEntityLayoutEnabled
    | ReadOnlySpecificValidatorsEnabled
    | AskedValidator(key: string, parameters: Assoc, defaultHandle: Handle, context: Assoc)
    | RanModifier(key: string, parameters: Assoc, defaultHandle: Handle, context: Assoc)

  /** What one evaluation did and what it produced: a decision, or the error a collaborator raised. */
  datatype Evaluation = Evaluation(trace: seq<Event>, outcome: Result<LayoutDecision, Error>)

  // ---------------------------------------------------------------------------
  // Construction
  // ---------------------------------------------------------------------------

  /** The keys of a registry, in registration order. */
  function Keys<T>(entries: seq<(string, T)>): (keys: seq<string>)
    ensures |keys| == |entries|
    ensures forall i :: 0 <= i < |entries| ==> keys[i] == entries[i].0
  {
    seq(|entries|, i requires 0 <= i < |entries| => entries[i].0)
  }

  ghost predicate AllImplement<T>(entries: seq<(string, Entry)>, implements: Entry -> Option<T>)
  {
    forall i :: 0 <= i < |entries| ==> implements(entries[i].1).Some?
  }

  /** Entry `j` is the first one, in registration order, that lacks the capability. */
  ghost predicate IsFirstRejected<T>(entries: seq<(string, Entry)>, implements: Entry -> Option<T>, j: nat)
  {
    && j < |entries|
    && implements(entries[j].1).None?
    && forall i :: 0 <= i < j ==> implements(entries[i].1).Some?
  }

  /** A registry check either types every entry or stops at an entry lacking the capability. */
  datatype Checked<T> = Accepted(typed: seq<(string, T)>) | Rejected(key: string, entry: Entry)

  /** The constructor's `foreach ... instanceof` loop over one registry. */
  function CheckRegistry<T>(entries: seq<(string, Entry)>, implements: Entry -> Option<T>): (r: Checked<T>)
    ensures r.Accepted? <==> AllImplement(entries, implements)
    ensures r.Accepted? ==> Keys(r.typed) == Keys(entries)
    ensures r.Accepted? ==> forall i :: 0 <= i < |entries| ==> implements(entries[i].1) == Some(r.typed[i].1)
    ensures r.Rejected? ==> implements(r.entry).None? && (r.key, r.entry) in entries
  {
    if |entries| == 0 then Accepted([])
    else match implements(entries[0].1)
      case None => Rejected(entries[0].0, entries[0].1)
      case Some(capability) =>
        match CheckRegistry(entries[1..], implements)
        case Rejected(key, entry) =>
          TailRejectionRejectsAll(entries, implements);
          Rejected(key, entry)
        case Accepted(rest) =>
          TypedTailExtends(entries, implements, capability, rest);
          Accepted([(entries[0].0, capability)] + rest)
  }

  /** An entry lacking the capability in the tail is one in the whole registry. */
  lemma TailRejectionRejectsAll<T>(entries: seq<(string, Entry)>, implements: Entry -> Option<T>)
    requires |entries| > 0 && !AllImplement(entries[1..], implements)
    ensures !AllImplement(entries, implements)
  {
    var i :| 0 <= i < |entries[1..]| && implements(entries[1..][i].1).None?;
    assert entries[1..][i] == entries[i + 1];
  }

  /** Typing the head and then the tail types the whole registry, key for key. */
  lemma TypedTailExtends<T>(entries: seq<(string, Entry)>, implements: Entry -> Option<T>,
                            capability: T, rest: seq<(string, T)>)
    requires |entries| > 0 && implements(entries[0].1) == Some(capability)
    requires Keys(rest) == Keys(entries[1..])
    requires forall i :: 0 <= i < |entries[1..]| ==> implements(entries[1..][i].1) == Some(rest[i].1)
    ensures (var typed := [(entries[0].0, capability)] + rest;
             && AllImplement(entries, implements)
             && Keys(typed) == Keys(entries)
             && forall i :: 0 <= i < |entries| ==> implements(entries[i].1) == Some(typed[i].1))
  {
    var typed := [(entries[0].0, capability)] + rest;
    assert |rest| == |entries| - 1 by { assert |Keys(rest)| == |Keys(entries[1..])|; }
    forall i | 1 <= i < |entries|
      ensures typed[i] == rest[i - 1] && entries[i] == entries[1..][i - 1]
    {
    }
    assert Keys(typed) == Keys(entries);
  }

  /** The check reports the first entry, in registration order, that lacks the capability. */
  lemma {:induction false} CheckRegistryRejectsFirstBadEntry<T>(entries: seq<(string, Entry)>,
                                                                implements: Entry -> Option<T>, j: nat)
    requires IsFirstRejected(entries, implements, j)
    ensures CheckRegistry(entries, implements) == Rejected(entries[j].0, entries[j].1)
    decreases j
  {
    if j > 0 {
      var tail := entries[1..];
      forall i | 0 <= i < j - 1
        ensures implements(tail[i].1).Some?
      {
        assert tail[i] == entries[i + 1];
      }
      assert tail[j - 1] == entries[j];
      CheckRegistryRejectsFirstBadEntry(tail, implements, j - 1);
    }
  }

  /** What `get_debug_type` reports for a rejected entry. */
  function GivenType(entry: Entry): string
  {
    match entry
    case Component(className, _, _) => className
    case Plain(v) => DebugType(v)
  }

  /** The evidently intended report: an InvalidArgumentException naming the key, whatever was given. */
  function RejectionError(registry: Registry, key: string, entry: Entry): (err: ConstructionError)
    ensures err.InvalidEntry? && err.registry == registry && err.key == key
  {
    InvalidEntry(registry, key, GivenType(entry))
  }

  /**
   * The report as written: the message is formatted with `get_class`, which
   * throws a TypeError when the entry is not an object, so the
   * InvalidArgumentException naming the key is never raised for it.
   */
  function RejectionErrorAsWritten(registry: Registry, key: string, entry: Entry): ConstructionError
  {
    match entry
    case Component(className, _, _) => InvalidEntry(registry, key, className)
    case Plain(v) => TypeError(DebugType(v))
  }

  /** The constructor: the validator registry is checked in full before the modifier registry. */
  function Construct(config: Config, validators: seq<(string, Entry)>, modifiers: seq<(string, Entry)>,
                     report: (Registry, string, Entry) -> ConstructionError): (r: Result<ValidatorStrategy, ConstructionError>)
    ensures r.Success? <==> AllImplement(validators, ImplementsValidator) && AllImplement(modifiers, ImplementsModifier)
    ensures r.Success? ==> r.value.config == config
    ensures r.Success? ==> Keys(r.value.validators) == Keys(validators) && Keys(r.value.modifiers) == Keys(modifiers)
    ensures r.Success? ==> forall i :: 0 <= i < |validators| ==> ImplementsValidator(validators[i].1) == Some(r.value.validators[i].1)
    ensures r.Success? ==> forall i :: 0 <= i < |modifiers| ==> ImplementsModifier(modifiers[i].1) == Some(r.value.modifiers[i].1)
  {
    match CheckRegistry(validators, ImplementsValidator)
    case Rejected(key, entry) => Failure(report(ValidatorRegistry, key, entry))
    case Accepted(typedValidators) =>
      match CheckRegistry(modifiers, ImplementsModifier)
      case Rejected(key, entry) => Failure(report(ModifierRegistry, key, entry))
      case Accepted(typedModifiers) => Success(ValidatorStrategy(config, typedValidators, typedModifiers))
  }

  /** The constructor with the intended error report; the rest of the model uses this one. */
  function NewValidatorStrategy(config: Config, validators: seq<(string, Entry)>,
                                modifiers: seq<(string, Entry)>): (r: Result<ValidatorStrategy, ConstructionError>)
    ensures r.Success? <==> AllImplement(validators, ImplementsValidator) && AllImplement(modifiers, ImplementsModifier)
    ensures r.Failure? ==> r.error.InvalidEntry?
    ensures r.Failure? && !AllImplement(validators, ImplementsValidator) ==> r.error.registry == ValidatorRegistry
    ensures r.Failure? && AllImplement(validators, ImplementsValidator) ==> r.error.registry == ModifierRegistry
  {
    Construct(config, validators, modifiers, RejectionError)
  }

  /** The constructor exactly as written, with `get_class` in the error message. */
  function NewValidatorStrategyAsWritten(config: Config, validators: seq<(string, Entry)>,
                                         modifiers: seq<(string, Entry)>): (r: Result<ValidatorStrategy, ConstructionError>)
    ensures r.Success? <==> NewValidatorStrategy(config, validators, modifiers).Success?
  {
    Construct(config, validators, modifiers, RejectionErrorAsWritten)
  }

  /** The first validator entry lacking the interface fails construction, naming its key. */
  lemma FirstBadValidatorIsReported(config: Config, validators: seq<(string, Entry)>,
                                    modifiers: seq<(string, Entry)>, j: nat)
    requires IsFirstRejected(validators, ImplementsValidator, j)
    ensures NewValidatorStrategy(config, validators, modifiers)
         == Failure(InvalidEntry(ValidatorRegistry, validators[j].0, GivenType(validators[j].1)))
  {
    CheckRegistryRejectsFirstBadEntry(validators, ImplementsValidator, j);
  }

  /**
   * With every validator valid, the first modifier entry lacking the
   * interface fails construction, naming its key.
   */
  lemma FirstBadModifierIsReported(config: Config, validators: seq<(string, Entry)>,
                                   modifiers: seq<(string, Entry)>, j: nat)
    requires AllImplement(validators, ImplementsValidator)
    requires IsFirstRejected(modifiers, ImplementsModifier, j)
    ensures NewValidatorStrategy(config, validators, modifiers)
         == Failure(InvalidEntry(ModifierRegistry, modifiers[j].0, GivenType(modifiers[j].1)))
  {
    CheckRegistryRejectsFirstBadEntry(modifiers, ImplementsModifier, j);
  }

  /**
   * As written, a first bad validator entry that is not an object fails
   * construction with a TypeError that names no registry key.
   */
  lemma AsWrittenNonObjectEntryHidesKey(config: Config, validators: seq<(string, Entry)>,
                                        modifiers: seq<(string, Entry)>, j: nat)
    requires IsFirstRejected(validators, ImplementsValidator, j)
    requires validators[j].1.Plain?
    ensures NewValidatorStrategyAsWritten(config, validators, modifiers)
         == Failure(TypeError(DebugType(validators[j].1.value)))
  {
    CheckRegistryRejectsFirstBadEntry(validators, ImplementsValidator, j);
  }

  /**
   * As written, with every validator valid, a first bad modifier entry that
   * is not an object fails construction with a TypeError that names no key.
   */
  lemma AsWrittenNonObjectModifierHidesKey(config: Config, validators: seq<(string, Entry)>,
                                           modifiers: seq<(string, Entry)>, j: nat)
    requires AllImplement(validators, ImplementsValidator)
    requires IsFirstRejected(modifiers, ImplementsModifier, j)
    requires modifiers[j].1.Plain?
    ensures NewValidatorStrategyAsWritten(config, validators, modifiers)
         == Failure(TypeError(DebugType(modifiers[j].1.value)))
  {
    CheckRegistryRejectsFirstBadEntry(modifiers, ImplementsModifier, j);
  }

  /**
   * As written, a first bad validator entry that is an object of the wrong
   * class fails construction with the exception naming its key and class.
   */
  lemma AsWrittenObjectValidatorIsReported(config: Config, validators: seq<(string, Entry)>,
                                           modifiers: seq<(string, Entry)>, j: nat)
    requires IsFirstRejected(validators, ImplementsValidator, j)
    requires validators[j].1.Component?
    ensures NewValidatorStrategyAsWritten(config, validators, modifiers)
         == Failure(InvalidEntry(ValidatorRegistry, validators[j].0, validators[j].1.className))
  {
    CheckRegistryRejectsFirstBadEntry(validators, ImplementsValidator, j);
  }

  /**
   * As written, with every validator valid, a first bad modifier entry that
   * is an object of the wrong class fails with the exception naming its key and class.
   */
  lemma AsWrittenObjectModifierIsReported(config: Config, validators: seq<(string, Entry)>,
                                          modifiers: seq<(string, Entry)>, j: nat)
    requires AllImplement(validators, ImplementsValidator)
    requires IsFirstRejected(modifiers, ImplementsModifier, j)
    requires modifiers[j].1.Component?
    ensures NewValidatorStrategyAsWritten(config, validators, modifiers)
         == Failure(InvalidEntry(ModifierRegistry, modifiers[j].0, modifiers[j].1.className))
  {
    CheckRegistryRejectsFirstBadEntry(modifiers, ImplementsModifier, j);
  }

  /**
   * A `stdClass` object wired in under the key "invalid", as a validator or
   * as a modifier, fails construction with the exception naming that key.
   */
  lemma AsWrittenStdClassExample(config: Config)
    ensures NewValidatorStrategyAsWritten(config, [("invalid", Component("stdClass", None, None))], [])
         == Failure(InvalidEntry(ValidatorRegistry, "invalid", "stdClass"))
    ensures NewValidatorStrategyAsWritten(config, [], [("invalid", Component("stdClass", None, None))])
         == Failure(InvalidEntry(ModifierRegistry, "invalid", "stdClass"))
  {
    AsWrittenObjectValidatorIsReported(config, [("invalid", Component("stdClass", None, None))], [], 0);
    AsWrittenObjectModifierIsReported(config, [], [("invalid", Component("stdClass", None, None))], 0);
  }

  /** A concrete instance: a string wired in as a validator under the key "invalid". */
  lemma AsWrittenStringValidatorExample(config: Config)
    ensures NewValidatorStrategyAsWritten(config, [("invalid", Plain(VString("not a validator")))], [])
         == Failure(TypeError("string"))
    ensures NewValidatorStrategy(config, [("invalid", Plain(VString("not a validator")))], [])
         == Failure(InvalidEntry(ValidatorRegistry, "invalid", "string"))
  {
    FirstBadValidatorIsReported(config, [("invalid", Plain(VString("not a validator")))], [], 0);
    AsWrittenNonObjectEntryHidesKey(config, [("invalid", Plain(VString("not a validator")))], [], 0);
  }

  // ---------------------------------------------------------------------------
  // Evaluation
  // ---------------------------------------------------------------------------

  /** The context array built for validators and modifiers: `['entity_specific' => $entitySpecific]`. */
  function ContextFor(entitySpecific: bool): Assoc
  {
    [("entity_specific", VBool(entitySpecific))]
  }

  /** The event is a validator or modifier call that received exactly these arguments. */
  ghost predicate CalledWith(event: Event, parameters: Assoc, defaultHandle: Handle, context: Assoc)
  {
    && (event.AskedValidator? || event.RanModifier?)
    && event.parameters == parameters && event.defaultHandle == defaultHandle && event.context == context
  }

  /** The position of the entry registered under `key`, if any (`isset($registry[$key])`). */
  function FindKey<T>(entries: seq<(string, T)>, key: string): (r: Option<nat>)
    ensures r.None? <==> forall i :: 0 <= i < |entries| ==> entries[i].0 != key
    ensures r.Some? ==> r.value < |entries| && entries[r.value].0 == key
    ensures r.Some? ==> forall i :: 0 <= i < r.value ==> entries[i].0 != key
  {
    if |entries| == 0 then None
    else if entries[0].0 == key then Some(0)
    else match FindKey(entries[1..], key)
      case None => None
      case Some(i) => Some(i + 1)
  }

  /** An allowing validator was found under `key`: apply the modifier registered under the same key, if any. */
  function AllowWith(modifiers: seq<(string, ModifierFn)>, key: string,
                     parameters: Assoc, defaultHandle: Handle, context: Assoc): (e: Evaluation)
    // the modifier under `key` runs at most once, on the original inputs and context
    ensures e.trace == [] || e.trace == [RanModifier(key, parameters, defaultHandle, context)]
    ensures e.trace == [] <==> FindKey(modifiers, key).None?
    // without a modifier the inputs are allowed untouched; with one, any decision is an allow
    ensures e.trace == [] ==> e.outcome == Success(LayoutDecision(true, parameters, defaultHandle))
    ensures e.outcome.Success? ==> e.outcome.value.allowed
  {
    match FindKey(modifiers, key)
    case None => Evaluation([], Success(LayoutDecision(true, parameters, defaultHandle)))
    case Some(m) =>
      var modified := match modifiers[m].1(parameters, defaultHandle, context)
        case Success(result) => Success(LayoutDecision(true, result.GetParameters(), result.GetDefaultHandle()))
        case Failure(err) => Failure(err);
      Evaluation([RanModifier(key, parameters, defaultHandle, context)], modified)
  }

  /**
   * The shape of a gated-mode trace: every call received the original inputs
   * and the context, validators are asked in registration order, and only
   * the last call may be a modifier, run right after the validator with its key.
   */
  ghost predicate GateTrace(trace: seq<Event>, validators: seq<(string, ValidatorFn)>,
                            parameters: Assoc, defaultHandle: Handle, context: Assoc)
  {
    && (forall i :: 0 <= i < |trace| ==> CalledWith(trace[i], parameters, defaultHandle, context))
    && |trace| <= |validators| + 1
    && (forall i :: 0 <= i < |trace| - 1 ==> trace[i].AskedValidator?)
    && (forall i :: 0 <= i < |trace| && trace[i].AskedValidator? ==> i < |validators| && trace[i].key == validators[i].0)
    && (0 < |trace| && trace[|trace| - 1].RanModifier? ==> 2 <= |trace| && trace[|trace| - 2].key == trace[|trace| - 1].key)
  }

  /** Asking the first validator and then going on keeps the trace in shape. */
  lemma AskedThenRest(validators: seq<(string, ValidatorFn)>, tail: seq<Event>,
                      parameters: Assoc, defaultHandle: Handle, context: Assoc)
    requires |validators| > 0
    requires GateTrace(tail, validators[1..], parameters, defaultHandle, context)
    ensures GateTrace([AskedValidator(validators[0].0, parameters, defaultHandle, context)] + tail,
                      validators, parameters, defaultHandle, context)
    // the last call is the tail's last call
    ensures (var trace := [AskedValidator(validators[0].0, parameters, defaultHandle, context)] + tail;
             0 < |tail| ==> trace[|trace| - 1] == tail[|tail| - 1])
  {
    var trace := [AskedValidator(validators[0].0, parameters, defaultHandle, context)] + tail;
    forall i | 1 <= i < |trace|
      ensures trace[i] == tail[i - 1]
    {
    }
    forall i | 1 <= i < |validators|
      ensures validators[i] == validators[1..][i - 1]
    {
    }
  }

  /** An allowing first validator, followed by its modifier if one is registered, is a trace in shape. */
  lemma AskedThenModifier(validators: seq<(string, ValidatorFn)>, modifiers: seq<(string, ModifierFn)>,
                          parameters: Assoc, defaultHandle: Handle, context: Assoc)
    requires |validators| > 0
    ensures GateTrace([AskedValidator(validators[0].0, parameters, defaultHandle, context)]
                        + AllowWith(modifiers, validators[0].0, parameters, defaultHandle, context).trace,
                      validators, parameters, defaultHandle, context)
    // when the modifier ran, it is the last call
    ensures (var allowed := AllowWith(modifiers, validators[0].0, parameters, defaultHandle, context);
             var trace := [AskedValidator(validators[0].0, parameters, defaultHandle, context)] + allowed.trace;
             allowed.trace != [] ==> trace[|trace| - 1].RanModifier?)
  {
  }

  /** The gated-mode `foreach` over the validators, in registration order. */
  function Gate(validators: seq<(string, ValidatorFn)>, modifiers: seq<(string, ModifierFn)>,
                parameters: Assoc, defaultHandle: Handle, context: Assoc): (e: Evaluation)
    decreases |validators|
    // every call made received the original inputs and the context
    ensures forall i :: 0 <= i < |e.trace| ==> CalledWith(e.trace[i], parameters, defaultHandle, context)
    // validators are asked one by one in registration order, and nothing but the last call is a modifier
    ensures |e.trace| <= |validators| + 1
    ensures forall i :: 0 <= i < |e.trace| - 1 ==> e.trace[i].AskedValidator?
    ensures forall i :: 0 <= i < |e.trace| && e.trace[i].AskedValidator? ==> i < |validators| && e.trace[i].key == validators[i].0
    // a modifier only ever runs right after the validator with the same key allowed
    ensures 0 < |e.trace| && e.trace[|e.trace| - 1].RanModifier? ==>
              2 <= |e.trace| && e.trace[|e.trace| - 2].key == e.trace[|e.trace| - 1].key
    // a denial always carries the original inputs
    ensures e.outcome.Success? && !e.outcome.value.allowed ==>
              e.outcome.value == LayoutDecision(false, parameters, defaultHandle)
    // an allowed decision differs from the inputs only when a modifier ran
    ensures e.outcome.Success? && e.outcome.value != LayoutDecision(true, parameters, defaultHandle) ==>
              !e.outcome.value.allowed || (0 < |e.trace| && e.trace[|e.trace| - 1].RanModifier?)
  {
    if |validators| == 0 then
      Evaluation([], Success(LayoutDecision(false, parameters, defaultHandle)))
    else
      var (key, validator) := validators[0];
      var asked := AskedValidator(key, parameters, defaultHandle, context);
      match validator(parameters, defaultHandle, context)
      case Failure(err) => Evaluation([asked], Failure(err))
      case Success(true) =>
        var allowed := AllowWith(modifiers, key, parameters, defaultHandle, context);
        AskedThenModifier(validators, modifiers, parameters, defaultHandle, context);
        Evaluation([asked] + allowed.trace, allowed.outcome)
      case Success(false) =>
        var rest := Gate(validators[1..], modifiers, parameters, defaultHandle, context);
        AskedThenRest(validators, rest.trace, parameters, defaultHandle, context);
        Evaluation([asked] + rest.trace, rest.outcome)
  }

  /** `shouldAllowEntityLayout(parameters, defaultHandle, entitySpecific)`. */
  function ShouldAllowEntityLayout(strategy: ValidatorStrategy, parameters: Assoc, defaultHandle: Handle,
                                   entitySpecific: bool): (e: Evaluation)
    // a non-entity-specific request is allowed untouched without consulting anything
    ensures !entitySpecific ==> e == Evaluation([], Success(LayoutDecision(true, parameters, defaultHandle)))
    // with entity layouts enabled the module steps aside after reading that one flag
    ensures entitySpecific && strategy.config.entityLayoutEnabled ==>
              e == Evaluation([ReadEntityLayoutEnabled], Success(LayoutDecision(true, parameters, defaultHandle)))
    // with both flags off every entity-specific request is denied, and no collaborator is called
    ensures entitySpecific && !strategy.config.entityLayoutEnabled && !strategy.config.onlySpecificValidatorsEnabled ==>
              e == Evaluation([ReadEntityLayoutEnabled, ReadOnlySpecificValidatorsEnabled],
                              Success(LayoutDecision(false, parameters, defaultHandle)))
    // every denial carries the original inputs
    ensures e.outcome.Success? && !e.outcome.value.allowed ==>
              e.outcome.value == LayoutDecision(false, parameters, defaultHandle)
    // every collaborator call receives the original inputs and the context ['entity_specific' => true]
    ensures forall i :: 2 <= i < |e.trace| ==> CalledWith(e.trace[i], parameters, defaultHandle, ContextFor(true))
    // only gated mode calls collaborators, so only gated mode can fail
    ensures |e.trace| > 2 || e.outcome.Failure? ==>
              entitySpecific && !strategy.config.entityLayoutEnabled && strategy.config.onlySpecificValidatorsEnabled
  {
    if !entitySpecific then
      Evaluation([], Success(LayoutDecision(true, parameters, defaultHandle)))
    else if strategy.config.entityLayoutEnabled then
      Evaluation([ReadEntityLayoutEnabled], Success(LayoutDecision(true, parameters, defaultHandle)))
    else if strategy.config.onlySpecificValidatorsEnabled then
      var gated := Gate(strategy.validators, strategy.modifiers, parameters, defaultHandle, ContextFor(entitySpecific));
      Evaluation([ReadEntityLayoutEnabled, ReadOnlySpecificValidatorsEnabled] + gated.trace, gated.outcome)
    else
      Evaluation([ReadEntityLayoutEnabled, ReadOnlySpecificValidatorsEnabled],
                 Success(LayoutDecision(false, parameters, defaultHandle)))
  }

  // ---------------------------------------------------------------------------
  // Gated mode, stated by the position of the deciding validator
  // ---------------------------------------------------------------------------

  /**
   * Validator `j` is the first whose answer is not a plain "no": every
   * earlier one returned false, and `j` returned true or threw (or `j` is
   * past the end: nobody said yes).
   */
  ghost predicate IsFirstDecisive(validators: seq<(string, ValidatorFn)>, parameters: Assoc,
                                  defaultHandle: Handle, context: Assoc, j: nat)
  {
    && j <= |validators|
    && (forall i :: 0 <= i < j ==> validators[i].1(parameters, defaultHandle, context) == Success(false))
    && (j < |validators| ==> validators[j].1(parameters, defaultHandle, context) != Success(false))
  }

  /** The calls to the first `n` validators, in order, each with the original inputs. */
  ghost function AskedFirst(validators: seq<(string, ValidatorFn)>, n: nat,
                            parameters: Assoc, defaultHandle: Handle, context: Assoc): seq<Event>
    requires n <= |validators|
  {
    seq(n, i requires 0 <= i < n => AskedValidator(validators[i].0, parameters, defaultHandle, context))
  }

  /**
   * What gated mode does, read off the deciding validator `j` directly:
   * validators `0..j` are asked and no later one; nobody allowing means a
   * denial with the inputs; a throw propagates; an allow applies the first
   * modifier registered under the same key, exactly once, or keeps the inputs
   * when there is none.
   */
  ghost function GatedReference(validators: seq<(string, ValidatorFn)>, modifiers: seq<(string, ModifierFn)>,
                                parameters: Assoc, defaultHandle: Handle, context: Assoc, j: nat): Evaluation
    requires j <= |validators|
  {
    if j == |validators| then
      Evaluation(AskedFirst(validators, j, parameters, defaultHandle, context),
                 Success(LayoutDecision(false, parameters, defaultHandle)))
    else
      var asked := AskedFirst(validators, j + 1, parameters, defaultHandle, context);
      var key := validators[j].0;
      match validators[j].1(parameters, defaultHandle, context)
      case Failure(err) => Evaluation(asked, Failure(err))
      case Success(_) =>
        match FindKey(modifiers, key)
        case None => Evaluation(asked, Success(LayoutDecision(true, parameters, defaultHandle)))
        case Some(m) =>
          var call := RanModifier(key, parameters, defaultHandle, context);
          match modifiers[m].1(parameters, defaultHandle, context)
          case Failure(err) => Evaluation(asked + [call], Failure(err))
          case Success(result) =>
            Evaluation(asked + [call], Success(LayoutDecision(true, result.parameters, result.defaultHandle)))
  }

  /** Some validator position always decides. */
  lemma {:induction false} FirstDecisiveExists(validators: seq<(string, ValidatorFn)>, parameters: Assoc,
                                               defaultHandle: Handle, context: Assoc)
    ensures exists j: nat :: IsFirstDecisive(validators, parameters, defaultHandle, context, j)
    decreases |validators|
  {
    if |validators| == 0 {
      assert IsFirstDecisive(validators, parameters, defaultHandle, context, 0);
    } else if validators[0].1(parameters, defaultHandle, context) != Success(false) {
      assert IsFirstDecisive(validators, parameters, defaultHandle, context, 0);
    } else {
      var tail := validators[1..];
      FirstDecisiveExists(tail, parameters, defaultHandle, context);
      var j: nat :| IsFirstDecisive(tail, parameters, defaultHandle, context, j);
      forall i | 0 <= i < j + 1
        ensures validators[i].1(parameters, defaultHandle, context) == Success(false)
      {
        if i > 0 { assert validators[i] == tail[i - 1]; }
      }
      if j < |tail| { assert validators[j + 1] == tail[j]; }
      assert IsFirstDecisive(validators, parameters, defaultHandle, context, j + 1);
    }
  }

  /** A validator that does not say a plain "no" decides at once. */
  lemma GateDecidesAtHead(validators: seq<(string, ValidatorFn)>, modifiers: seq<(string, ModifierFn)>,
                          parameters: Assoc, defaultHandle: Handle, context: Assoc)
    requires IsFirstDecisive(validators, parameters, defaultHandle, context, 0)
    ensures Gate(validators, modifiers, parameters, defaultHandle, context)
         == GatedReference(validators, modifiers, parameters, defaultHandle, context, 0)
  {
    if |validators| > 0 {
      assert AskedFirst(validators, 1, parameters, defaultHandle, context)
          == [AskedValidator(validators[0].0, parameters, defaultHandle, context)];
    }
  }

  /** Peeling a validator that said "no" off the front shifts the reference by one position. */
  lemma ReferenceStep(validators: seq<(string, ValidatorFn)>, modifiers: seq<(string, ModifierFn)>,
                      parameters: Assoc, defaultHandle: Handle, context: Assoc, j: nat)
    requires 0 < j <= |validators|
    ensures var g := GatedReference(validators, modifiers, parameters, defaultHandle, context, j);
            var r := GatedReference(validators[1..], modifiers, parameters, defaultHandle, context, j - 1);
            g == Evaluation([AskedValidator(validators[0].0, parameters, defaultHandle, context)] + r.trace, r.outcome)
  {
    var tail := validators[1..];
    var head := AskedValidator(validators[0].0, parameters, defaultHandle, context);
    var n := if j == |validators| then j else j + 1;
    assert AskedFirst(validators, n, parameters, defaultHandle, context)
        == [head] + AskedFirst(tail, n - 1, parameters, defaultHandle, context);
    if j < |validators| {
      assert tail[j - 1] == validators[j];
      var call := RanModifier(validators[j].0, parameters, defaultHandle, context);
      assert AskedFirst(validators, n, parameters, defaultHandle, context) + [call]
          == [head] + (AskedFirst(tail, n - 1, parameters, defaultHandle, context) + [call]);
    }
  }

  /** The recursive loop agrees with the reference at the deciding position. */
  lemma {:induction false} GateMatchesReference(validators: seq<(string, ValidatorFn)>, modifiers: seq<(string, ModifierFn)>,
                                                parameters: Assoc, defaultHandle: Handle, context: Assoc, j: nat)
    requires IsFirstDecisive(validators, parameters, defaultHandle, context, j)
    ensures Gate(validators, modifiers, parameters, defaultHandle, context)
         == GatedReference(validators, modifiers, parameters, defaultHandle, context, j)
    decreases j
  {
    if j == 0 {
      GateDecidesAtHead(validators, modifiers, parameters, defaultHandle, context);
    } else {
      var tail := validators[1..];
      forall i | 0 <= i < j - 1
        ensures tail[i].1(parameters, defaultHandle, context) == Success(false)
      {
        assert tail[i] == validators[i + 1];
      }
      if j - 1 < |tail| { assert tail[j - 1] == validators[j]; }
      assert IsFirstDecisive(tail, parameters, defaultHandle, context, j - 1);
      GateMatchesReference(tail, modifiers, parameters, defaultHandle, context, j - 1);
      ReferenceStep(validators, modifiers, parameters, defaultHandle, context, j);
    }
  }

  /**
   * The whole of gated mode: after reading both flags, the strategy behaves
   * as the reference at the deciding validator.
   */
  lemma GatedModeFollowsReference(strategy: ValidatorStrategy, parameters: Assoc, defaultHandle: Handle, j: nat)
    requires !strategy.config.entityLayoutEnabled && strategy.config.onlySpecificValidatorsEnabled
    requires IsFirstDecisive(strategy.validators, parameters, defaultHandle, ContextFor(true), j)
    ensures var e := ShouldAllowEntityLayout(strategy, parameters, defaultHandle, true);
            var g := GatedReference(strategy.validators, strategy.modifiers, parameters, defaultHandle, ContextFor(true), j);
            e == Evaluation([ReadEntityLayoutEnabled, ReadOnlySpecificValidatorsEnabled] + g.trace, g.outcome)
  {
    GateMatchesReference(strategy.validators, strategy.modifiers, parameters, defaultHandle, ContextFor(true), j);
  }

  /** A non-entity-specific request gets the same decision whatever the configuration and registries. */
  lemma NonEntitySpecificIgnoresStrategy(s1: ValidatorStrategy, s2: ValidatorStrategy,
                                         parameters: Assoc, defaultHandle: Handle)
    ensures ShouldAllowEntityLayout(s1, parameters, defaultHandle, false)
         == ShouldAllowEntityLayout(s2, parameters, defaultHandle, false)
    ensures ShouldAllowEntityLayout(s1, parameters, defaultHandle, false).outcome
         == Success(LayoutDecision(true, parameters, defaultHandle))
  {
  }

  // ---------------------------------------------------------------------------
  // The scenarios of the unit tests, as instances
  // ---------------------------------------------------------------------------

  /** A validator that gives the same answer whatever it is asked. */
  function ConstantValidator(shouldAllow: bool): (v: ValidatorFn)
    ensures forall p, h, c :: v(p, h, c) == Success(shouldAllow)
  {
    (p: Assoc, h: Handle, c: Assoc) => Success(shouldAllow)
  }

  /** A modifier that always rewrites to the given values, recording what it was given. */
  function RewritingModifier(newParameters: Assoc, newHandle: Handle): (m: ModifierFn)
    ensures forall p, h, c :: m(p, h, c) == Success(ModificationResult(newParameters, newHandle, p, h))
  {
    (p: Assoc, h: Handle, c: Assoc) => Success(ModificationResult(newParameters, newHandle, p, h))
  }

  /**
   * `validator1` says no and `validator2` says yes, with a modifier under each
   * key: both validators are asked in order with the originals and
   * `['entity_specific' => true]`; then `validator2`'s modifier runs once on
   * the same arguments, `validator1`'s never does, and the decision is the
   * modifier's output.
   */
  lemma SecondValidatorAllowsExample(parameters: Assoc, defaultHandle: Handle)
    ensures var strategy := ValidatorStrategy(Config(false, true),
              [("validator1", ConstantValidator(false)), ("validator2", ConstantValidator(true))],
              [("validator1", RewritingModifier([], None)), ("validator2", RewritingModifier(parameters, defaultHandle))]);
            var context := ContextFor(true);
            (ShouldAllowEntityLayout(strategy, parameters, defaultHandle, true)
             == Evaluation([ReadEntityLayoutEnabled, ReadOnlySpecificValidatorsEnabled,
                            AskedValidator("validator1", parameters, defaultHandle, context),
                            AskedValidator("validator2", parameters, defaultHandle, context),
                            RanModifier("validator2", parameters, defaultHandle, context)],
                           Success(LayoutDecision(true, parameters, defaultHandle))))
  {
    var strategy := ValidatorStrategy(Config(false, true),
      [("validator1", ConstantValidator(false)), ("validator2", ConstantValidator(true))],
      [("validator1", RewritingModifier([], None)), ("validator2", RewritingModifier(parameters, defaultHandle))]);
    assert FindKey(strategy.modifiers, "validator2") == Some(1);
  }

  /**
   * The first validator allows and a modifier is registered under its key:
   * the decision carries exactly the modifier's parameters and handle.
   */
  lemma ModifierRewriteExample()
    ensures var parameters := [("test", VString("value"))];
            var modified := [("test", VString("modified_value")), ("new_param", VString("added"))];
            var strategy := ValidatorStrategy(Config(false, true),
              [("validator1", ConstantValidator(true)), ("validator2", ConstantValidator(true))],
              [("validator1", RewritingModifier(modified, Some("modified_handle"))), ("validator2", RewritingModifier([], None))]);
            (ShouldAllowEntityLayout(strategy, parameters, Some("test_handle"), true).outcome
             == Success(LayoutDecision(true, modified, Some("modified_handle"))))
  {
  }
}
