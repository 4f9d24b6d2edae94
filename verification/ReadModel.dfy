/** What the read projection hands to the encoders. */
module ReadModel {
  import opened Types
  import opened VehicleData

  const SELECTED: Byte := 3

  predicate ValidSelection(code: Byte) { code <= SELECTED }
  predicate ValidSupport(code: Byte) { code <= 3 }

  datatype Snapshot = Snapshot(
    selection: Byte, activeIdentity: Option<U32>, hasRegistry: bool, capabilityCount: nat, sampleCount: nat)

  datatype Descriptor = Descriptor(identity: seq<Byte>, expectedType: Byte, unit: seq<Byte>, support: Byte) {
    // Both texts are bounded texts.
    predicate Bounded() {
      TextOk(identity, MAX_SIGNAL_ID) && TextOk(unit, MAX_UNIT)
    }
  }
}
