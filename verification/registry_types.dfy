/** The device registry's stored shapes. */
module RegistryTypes {
  import opened Wrappers
  import opened GraphQL

  /** A stored capability; the constructor is its `__typename`. */
  datatype Capability =
    | BinaryCapability(property: string, description: string, access: Access)
    | NumericCapability(property: string, description: string, access: Access,
                        max: Option<real>, min: Option<real>, unit: Option<string>)
    | EnumCapability(property: string, description: string, access: Access, values: seq<string>)

  datatype Exposes = Exposes(kind: string, capabilities: seq<Capability>)

  /** The fields every registration fills in from its input and a fresh id. */
  datatype BaseDevice = BaseDevice(
    id: string,
    name: string,
    description: Option<string>,
    powerSource: Option<string>,
    exposes: Exposes)

  /** A registered device: the base fields, the registering controller and the device's capabilities. */
  datatype Device = Device(base: BaseDevice, controller: string, capabilities: seq<Capability>)
  {
    function Id(): string
    {
      base.id
    }
  }
}
