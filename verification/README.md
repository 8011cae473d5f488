# Page layout manager: the entity-layout decision engine in Dafny

This project models the part of the Magento 2 page layout manager module that decides whether
entity-specific page layout handles reach the full-page-cache pipeline. Entity-specific handles
vary per product, category or CMS page, so each one multiplies the number of cached page variants.

The model has four parts.

- **`LayoutDecision`** is the immutable triple (allowed, parameters, default handle) that the strategy returns.
- **`ModificationResult`** is the value a parameter modifier returns: new parameters and handle,
  the originals it recorded, and `hasModifications`.
- **`ValidatorStrategy`** checks both registries when it is constructed. Its `shouldAllowEntityLayout`
  is a four-way cascade:
  - a non-entity-specific request is always allowed;
  - when entity layouts are enabled, the module steps aside;
  - with both configuration flags off, every entity-specific request is denied;
  - in validator-gated mode, validators are asked in registration order and the first "yes" wins.
    A modifier registered under the same key may then rewrite the parameters and handle.
- **`LayoutHandleManager::aroundAddPageLayoutHandles`** is the plugin around the host page's
  handle-registration step. A denied entity-specific request is swallowed and reported as
  handled. Any other request goes on to the host step with the decision's values. An exception
  is logged, and the host step then runs on the original inputs.

## How the model is built

- PHP arrays of parameters and of context are `seq<(string, Value)>`. Order is part of the value,
  so PHP's strict `===`/`!==` on arrays is sequence equality. The nullable default handle is
  `Option<string>`.
- Validators, modifiers, the strategy as seen by the plugin, and the host step `$proceed` are
  total functions returning `Result`. A `Failure` stands for the exception the PHP code would throw.
- The two configuration flags are a `Config` value held by the strategy.
- An evaluation returns an `Evaluation`: a trace of the collaborator calls made, in order and
  with their arguments (flag reads, validator calls, modifier calls), plus the decision or the
  error raised. "Never consulted" and "received the original inputs" are statements about that trace.
- A plugin run returns a `Run`: the calls made to the host step, the log records emitted, and
  the value returned or the error that escaped.
- Registry entries before construction are `Entry` values: an object of some class, which may
  implement the validator interface, the modifier interface, both or neither; or a non-object value.
- Gated mode is also described without recursion by `GatedReference`. It is written in terms of
  `j`, the position of the first validator whose answer is not a plain "no". `GateMatchesReference`
  proves that the recursive loop agrees with it for every input, and `FirstDecisiveExists` shows
  that such a `j` always exists.

Files: `wrappers.dfy` (Option, Result), `php_values.dfy` (values, arrays, handles, errors),
`layout_decision.dfy`, `modification_result.dfy`, `validator_strategy.dfy`,
`layout_handle_manager.dfy`.

Where the code and its declared interface disagree, the model follows the code.
`Api/LayoutHandleStrategyInterface.php` declares `shouldAllowEntityLayout` as returning `bool`, and
the plugin's unit tests mock `bool` returns. The strategy and the plugin actually produce and
consume a decision object, so that is what the model uses. The tests are read only for the
allow/block behaviour they expect.

## Model

| member | source | states |
|---|---|---|
| `LayoutDecisions.GettersReturnConstructedFields` | Model/LayoutDecision.php:24-53 | `isAllowed`, `getParameters` and `getDefaultHandle` return exactly what was constructed, for a false flag, an empty array and a null handle too |
| `LayoutDecisions.DecisionUnaffectedByLaterCallerUpdates` | Model/LayoutDecision.php:24-28 | whatever the caller later does to its own array and handle variables, the decision keeps the parameters and handle it was built with |
| `ModificationResults.NewModificationResult` | Model/ModificationResult.php:25-31 | a result built without originals records `[]` and null as its originals and returns the given parameters and handle |
| `ModificationResults.GettersReturnConstructedValues` | Model/ModificationResult.php:25-47 | the getters return exactly the constructor's parameters and handle, null included |
| `ModificationResults.UnchangedResultHasNoModifications` | Model/ModificationResult.php:52-56 | a result whose values equal its recorded originals reports no modification |
| `ModificationResults.ModifiedIffNotIdentityRewrite` | Model/ModificationResult.php:52-56 | a modification is reported if and only if the result is not the identity rewrite of its own originals |
| `ModificationResults.DefaultOriginalsModifiedIffNonEmpty` | Model/ModificationResult.php:28-56 | built without originals, a result reports a modification if and only if it has a parameter or a non-null handle |
| `ModificationResults.DifferentEntriesAreModification` | Model/ModificationResult.php:54 | parameters whose key/value pairs differ from the originals, in any order, always count as a modification |
| `ModificationResults.ReorderingIsModification` | Model/ModificationResult.php:54 | the comparison is order-sensitive: the same pairs in another order count as a modification |
| `ValidatorStrategies.CheckRegistry` | Model/Strategy/ValidatorStrategy.php:38-49 | a registry passes if and only if every entry implements the interface; it then keeps every key in order, each with that entry's capability; otherwise it reports an entry that lacks the interface |
| `ValidatorStrategies.CheckRegistryRejectsFirstBadEntry` | Model/Strategy/ValidatorStrategy.php:38-49 | the entry reported is the first one, in registration order, that lacks the interface |
| `ValidatorStrategies.Construct` | Model/Strategy/ValidatorStrategy.php:31-64 | construction succeeds if and only if both registries pass; the strategy then keeps the configuration and both registries' keys in order, with each entry's capability |
| `ValidatorStrategies.NewValidatorStrategy` | Model/Strategy/ValidatorStrategy.php:31-64 | corrected: construction fails exactly when some entry lacks its interface, always with an invalid-entry error; a bad validator registry is reported before any modifier entry is looked at |
| `ValidatorStrategies.RejectionError` | Model/Strategy/ValidatorStrategy.php:40-47 | the corrected report is an invalid-entry error naming the registry and the offending key, whatever was given |
| `ValidatorStrategies.FirstBadValidatorIsReported` | Model/Strategy/ValidatorStrategy.php:38-49 | corrected: the first bad validator entry fails construction with an error naming its key and what was given |
| `ValidatorStrategies.FirstBadModifierIsReported` | Model/Strategy/ValidatorStrategy.php:51-63 | corrected: with all validators valid, the first bad modifier entry fails construction with an error naming its key and what was given |
| `ValidatorStrategies.NewValidatorStrategyAsWritten` | Model/Strategy/ValidatorStrategy.php:31-64 | the constructor as written accepts and rejects the same registries as the corrected one |
| `ValidatorStrategies.AsWrittenNonObjectEntryHidesKey` | Model/Strategy/ValidatorStrategy.php:39-47 | as written, a first bad validator entry that is not an object fails with a TypeError that names no key |
| `ValidatorStrategies.AsWrittenNonObjectModifierHidesKey` | Model/Strategy/ValidatorStrategy.php:52-61 | as written, with all validators valid, a first bad modifier entry that is not an object fails with a TypeError that names no key |
| `ValidatorStrategies.AsWrittenObjectValidatorIsReported` | Model/Strategy/ValidatorStrategy.php:38-49 | as written, a first bad validator entry that is an object of the wrong class fails with the exception naming its key and class |
| `ValidatorStrategies.AsWrittenObjectModifierIsReported` | Model/Strategy/ValidatorStrategy.php:51-63 | as written, with all validators valid, a first bad modifier entry that is an object of the wrong class fails with the exception naming its key and class |
| `ValidatorStrategies.AsWrittenStdClassExample` | Test/Unit/Model/Strategy/ValidatorStrategyTest.php:384-407 | a `stdClass` wired in under `invalid`, as a validator or as a modifier, fails construction with the exception naming `invalid` in the right registry |
| `ValidatorStrategies.AsWrittenStringValidatorExample` | Model/Strategy/ValidatorStrategy.php:39-47 | the registry `['invalid' => 'not a validator']` fails with a TypeError as written, and with an error naming `invalid` once corrected |
| `ValidatorStrategies.FindKey` | Model/Strategy/ValidatorStrategy.php:105-106 | finds a modifier under the key if and only if one is registered there, and returns the position of the first such entry |
| `ValidatorStrategies.AllowWith` | Model/Strategy/ValidatorStrategy.php:101-116 | once a validator allows, the modifier under the same key runs at most once, on the original inputs and context, and runs exactly when such a modifier is registered; without one the inputs are allowed untouched, and any decision produced is an allow |
| `ValidatorStrategies.Gate` | Model/Strategy/ValidatorStrategy.php:99-125 | validators are asked one at a time in registration order, each with the original inputs and context. A modifier runs only as the last call, right after the validator with the same key. A denial carries the originals. An allowed decision differs from the inputs only when a modifier ran |
| `ValidatorStrategies.ShouldAllowEntityLayout` | Model/Strategy/ValidatorStrategy.php:69-134 | a non-entity-specific request: allowed with the inputs, nothing read. Entity layouts enabled: allowed with the inputs after reading only that flag. Both flags off: denied with the inputs, no validator or modifier called. Every denial carries the originals. Every collaborator call gets the originals and `['entity_specific' => true]`. Only gated mode can fail |
| `ValidatorStrategies.FirstDecisiveExists` | Model/Strategy/ValidatorStrategy.php:99-125 | every validator list and input has a deciding position: the first validator that does not return false, or the end of the list |
| `ValidatorStrategies.GateMatchesReference` | Model/Strategy/ValidatorStrategy.php:99-125 | for the deciding position `j`: validators `0..j` are asked and no later one. If none allows, the result is a denial with the inputs. A throw propagates. An allow runs the modifier under the same key exactly once and uses its parameters and handle, or keeps the inputs when no such modifier exists |
| `ValidatorStrategies.GatedModeFollowsReference` | Model/Strategy/ValidatorStrategy.php:93-126 | in gated mode the strategy reads both flags and then behaves exactly as that reference |
| `ValidatorStrategies.NonEntitySpecificIgnoresStrategy` | Model/Strategy/ValidatorStrategy.php:75-81 | for a non-entity-specific request the result is the same whatever the configuration and registries, and is an allow carrying the inputs |
| `ValidatorStrategies.SecondValidatorAllowsExample` | Test/Unit/Model/Strategy/ValidatorStrategyTest.php:148-204 | with `validator1` answering no and `validator2` yes, and a modifier under each key: both validators are asked in order with the originals and `['entity_specific' => true]`, then the `validator2` modifier runs once on the same arguments, the `validator1` modifier never runs, and the decision is allowed with the modifier's output |
| `ValidatorStrategies.ModifierRewriteExample` | Test/Unit/Model/Strategy/ValidatorStrategyTest.php:280-335 | when `validator1` allows and a modifier is registered under `validator1`, the decision is exactly that modifier's parameters and handle |
| `LayoutHandleManager.AroundAddPageLayoutHandles` | Plugin/Framework/View/Result/Page/LayoutHandleManager.php:42-77 | A denied entity-specific request returns true, with no host call and no log. Otherwise the host step first gets the decision's values and the original flag, and its result is passed back. A strategy error is logged once with the original inputs, which then go to the host step. When the forwarded call throws, the error is logged once with the original inputs, the host step runs a second time on them, and that result is returned. The plugin fails only when the host step fails on the originals |
| `LayoutHandleManager.NonEntitySpecificProceedsWithOriginals` | Plugin/Framework/View/Result/Page/LayoutHandleManager.php:56-66 | with the validator strategy wired in, a non-entity-specific request always reaches the host step, and only with its original inputs |
| `LayoutHandleManager.BothFlagsOffBlocksEntitySpecific` | Plugin/Framework/View/Result/Page/LayoutHandleManager.php:56-58 | with both flags off, an entity-specific request never reaches the host step and the plugin reports success |
| `LayoutHandleManager.GatedModeThroughPlugin` | Plugin/Framework/View/Result/Page/LayoutHandleManager.php:50-66 | in gated mode, a request nobody allows is swallowed. An allowed request reaches the host step with the modifier's parameters and handle when one is registered under the allowing key, and with the originals otherwise |
| `LayoutHandleManager.ThrowingCollaboratorFailsOpen` | Plugin/Framework/View/Result/Page/LayoutHandleManager.php:67-75 | when a validator or modifier throws, the plugin logs once with the original inputs and returns the host step's result on those inputs |

## Left out

- `Model/Config/LayoutHandleConfig.php` is a thin wrapper over the host's scope configuration. The model takes the two flags as a `Config` value, and reading them cannot fail.
- The decision factory and the object manager are left out: decisions are built directly as datatype values.
- The Magento `Page` subject and the plugin interception mechanism are host plumbing. `$proceed` is an oracle function.
- The PSR logger sink is left out. The log record is emitted as a value: the message prefix followed by the error message, plus the three original inputs.
- Concrete validators and modifiers exist only as interfaces. They are function parameters. The unit tests' constant validator appears as `ConstantValidator`.
- Exception message formatting (`sprintf`, the interface names) is reduced to the registry, the key and the type name given.
- PHP's `\Error` and `\Exception` are one failure kind. In PHP, an `\Error` raised inside the plugin's `try` is not caught. The model catches every failure.
- Parameter values that are objects are left out, and so is their identity comparison. `Value` covers null, booleans, integers, strings and nested arrays. Floats are left out, and so is PHP's coercion of numeric-string array keys.
- PHP arrays cannot hold a key twice, but the model's sequences can. Where a key repeats, the model's lookup takes the first entry.
- `isset()` is false for a null entry. Construction already rejects null entries, so that case cannot reach the lookup and is not modelled.
- The strategy and plugin parameters' PHP defaults (`[]`, null, true) are left out. Every call passes all three inputs.

## Findings

| source | as written | input that shows it | evidently intended | confidence | as-written member | corrected member |
|---|---|---|---|---|---|---|
| Model/Strategy/ValidatorStrategy.php:39-47 | the rejection message is formatted with `get_class($validator)`, which raises a TypeError for a non-object, so the exception naming the key is never thrown for such an entry | validator registry `['invalid' => 'not a validator']` | an InvalidArgumentException naming the key `invalid` for every entry that does not implement the interface | medium, not executed | `ValidatorStrategies.AsWrittenNonObjectEntryHidesKey` | `ValidatorStrategies.FirstBadValidatorIsReported` |
| Model/Strategy/ValidatorStrategy.php:53-61 | the modifier loop formats its message with `get_class($modifier)` in the same way, so a non-object modifier entry raises a TypeError instead of the exception naming its key | validators all valid, modifier registry `['invalid' => 'not a modifier']` | an InvalidArgumentException naming the key `invalid` for every modifier entry that does not implement the interface | medium, not executed | `ValidatorStrategies.AsWrittenNonObjectModifierHidesKey` | `ValidatorStrategies.FirstBadModifierIsReported` |
