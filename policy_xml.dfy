/**
 * The parsed form of a policy XML document, reduced to what the core reads and
 * writes. XML parsing and serialisation themselves are not modelled: they are
 * passed in as functions by the callers.
 */
module PolicyXml {
  import opened Wrappers

  /**
   * A `UserJourney` element: its `Id` attribute, and the `Order` attribute of
   * each of its `OrchestrationStep` elements in document order (None when a
   * step has no `Order` attribute).
   */
  datatype Journey = Journey(id: Option<string>, steps: seq<Option<string>>)

  datatype PolicyDocument = PolicyDocument(
    /** `PolicyId` attribute of the root element. */
    rootPolicyId: Option<string>,
    /** `TenantId` attribute of the root element. */
    rootTenantId: Option<string>,
    /** Text of the first `<PolicyId>` element anywhere in the document, if there is one. */
    basePolicyId: Option<string>,
    /** The `UserJourney` elements in document order. */
    journeys: seq<Journey>)

  /** A JavaScript attribute value that is truthy: present and not the empty string. */
  predicate Truthy(attr: Option<string>) {
    attr.Some? && attr.value != ""
  }
}
