/** The immutable outcome of one strategy evaluation. */
module LayoutDecisions {
  import opened PhpValues

  /**
   * Whether entity-specific handles are allowed, together with the
   * (possibly rewritten) parameters and default handle to render with.
   * Every field is fixed at construction, as the readonly properties are.
   */
  datatype LayoutDecision = LayoutDecision(allowed: bool, parameters: Assoc, defaultHandle: Handle)
  {
    function IsAllowed(): bool { allowed }

    function GetParameters(): Assoc { parameters }

    function GetDefaultHandle(): Handle { defaultHandle }
  }

  /** The getters hand back exactly what was constructed, empty array and null included. */
  lemma GettersReturnConstructedFields(allowed: bool, parameters: Assoc, defaultHandle: Handle)
    ensures LayoutDecision(allowed, parameters, defaultHandle).IsAllowed() == allowed
    ensures LayoutDecision(allowed, parameters, defaultHandle).GetParameters() == parameters
    ensures LayoutDecision(allowed, parameters, defaultHandle).GetDefaultHandle() == defaultHandle
  {
  }

  /**
   * A caller that goes on to change its parameter array and reassign its
   * handle after constructing a decision does not change that decision.
   */
  lemma DecisionUnaffectedByLaterCallerUpdates(allowed: bool, parameters: Assoc, defaultHandle: Handle,
                                               updatedParameters: Assoc, updatedHandle: Handle)
    ensures var d := LayoutDecision(allowed, parameters, defaultHandle);
            // the caller rebinding its variables to updatedParameters / updatedHandle touches nothing of d
            d.GetParameters() == parameters && d.GetDefaultHandle() == defaultHandle
  {
  }
}
