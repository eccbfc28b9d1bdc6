/**
  The zigbee2mqtt `bridge/devices` snapshot: one entry per paired device, each either unsupported
  (no definition) or supported with a description and its exposed capabilities.
 */
module BridgeTypes {
  import opened Wrappers

  /**
    A capability that is not a light. Every kind carries the integer access code that zigbee2mqtt sends
    with each expose, and an optional description; numbers are only ever copied, so they are `real`.
   */
  datatype NonLightCapability =
    | Numeric(property: string, name: string, access: int, description: Option<string>,
              valueMax: real, valueMin: real, unit: string)
    | Binary(property: string, name: string, access: int, description: Option<string>,
             valueOn: string, valueOff: string, valueToggle: string)
    | Enum(property: string, name: string, access: int, description: Option<string>, values: seq<string>)
  {
    /** The `type` discriminator as the snapshot spells it. */
    function TypeName(): string
    {
      match this
      case Numeric(_, _, _, _, _, _, _) => "numeric"
      case Binary(_, _, _, _, _, _, _) => "binary"
      case Enum(_, _, _, _, _) => "enum"
    }
  }

  /** An exposed capability: a light bundles non-light features, anything else stands alone. */
  datatype Capability =
    | Light(access: int, features: seq<NonLightCapability>)
    | Single(capability: NonLightCapability)

  datatype Definition = Definition(description: string, exposes: seq<Capability>)

  /** `definition` is null exactly for the devices zigbee2mqtt reports as unsupported. */
  datatype BridgeDevice = BridgeDevice(
    ieeeAddress: string,
    friendlyName: string,
    powerSource: string,
    interviewCompleted: bool,
    interviewing: bool,
    definition: Option<Definition>)
  {
    predicate Supported()
    {
      definition.Some?
    }
  }
}
