/** What a parameter modifier returns: the new values and the ones it started from. */
module ModificationResults {
  import opened Wrappers
  import opened PhpValues

  datatype ModificationResult = ModificationResult(
    parameters: Assoc,
    defaultHandle: Handle,
    originalParameters: Assoc,
    originalDefaultHandle: Handle)
  {
    function GetParameters(): Assoc { parameters }

    function GetDefaultHandle(): Handle { defaultHandle }

    /** PHP strict `!==` on both the array (order-sensitive) and the nullable handle. */
    predicate HasModifications()
    {
      parameters != originalParameters || defaultHandle != originalDefaultHandle
    }
  }

  /** The constructor called without originals: they default to `[]` and null. */
  function NewModificationResult(parameters: Assoc, defaultHandle: Handle): (r: ModificationResult)
    ensures r.GetParameters() == parameters && r.GetDefaultHandle() == defaultHandle
    ensures r.originalParameters == [] && r.originalDefaultHandle == None
  {
    ModificationResult(parameters, defaultHandle, [], None)
  }

  /** The getters hand back exactly what was constructed, null handle included. */
  lemma GettersReturnConstructedValues(parameters: Assoc, defaultHandle: Handle,
                                       originalParameters: Assoc, originalDefaultHandle: Handle)
    ensures var r := ModificationResult(parameters, defaultHandle, originalParameters, originalDefaultHandle);
            r.GetParameters() == parameters && r.GetDefaultHandle() == defaultHandle
  {
  }

  /** A result that hands back its originals untouched reports no modification. */
  lemma UnchangedResultHasNoModifications(parameters: Assoc, defaultHandle: Handle)
    ensures !ModificationResult(parameters, defaultHandle, parameters, defaultHandle).HasModifications()
  {
  }

  /**
   * A modification is reported exactly when the result is not the identity
   * rewrite of its originals.
   */
  lemma ModifiedIffNotIdentityRewrite(r: ModificationResult)
    ensures r.HasModifications()
        <==> r != ModificationResult(r.originalParameters, r.originalDefaultHandle,
                                     r.originalParameters, r.originalDefaultHandle)
  {
  }

  /**
   * Built without originals, a result reports a modification iff it carries
   * at least one parameter or a non-null handle.
   */
  lemma DefaultOriginalsModifiedIffNonEmpty(parameters: Assoc, defaultHandle: Handle)
    ensures NewModificationResult(parameters, defaultHandle).HasModifications()
        <==> |parameters| > 0 || defaultHandle.Some?
  {
  }

  /** Parameters holding different key/value pairs always count as a modification. */
  lemma DifferentEntriesAreModification(r: ModificationResult)
    requires !SameEntries(r.parameters, r.originalParameters)
    ensures r.HasModifications()
  {
  }

  /**
   * The comparison is order-sensitive: the same two pairs in the opposite
   * order count as a modification although no entry changed.
   */
  lemma ReorderingIsModification()
    ensures var reordered := [("b", VInt(2)), ("a", VInt(1))];
            var original := [("a", VInt(1)), ("b", VInt(2))];
            SameEntries(reordered, original)
            && ModificationResult(reordered, None, original, None).HasModifications()
  {
    var reordered := [("b", VInt(2)), ("a", VInt(1))];
    var original := [("a", VInt(1)), ("b", VInt(2))];
    assert reordered[0] != original[0];
  }
}
