/** The registry's GraphQL input types, as both services see them. */
module GraphQL {
  import opened Wrappers

  datatype Access = Read | Write | Readwrite

  datatype BinaryCapabilityInput = BinaryCapabilityInput(property: string, description: Option<string>, access: Access)

  datatype NumericCapabilityInput = NumericCapabilityInput(
    property: string,
    description: Option<string>,
    access: Access,
    min: Option<real>,
    max: Option<real>,
    unit: Option<string>)

  datatype EnumCapabilityInput = EnumCapabilityInput(
    property: string,
    description: Option<string>,
    access: Access,
    values: Option<seq<string>>)

  /** GraphQL has no input unions: one optional field per capability kind. */
  datatype CapabilityInputObject = CapabilityInputObject(
    binary: Option<BinaryCapabilityInput>,
    numeric: Option<NumericCapabilityInput>,
    enum: Option<EnumCapabilityInput>)

  /** The names of the fields that are set, in the type's field order. */
  function SetKeys(o: CapabilityInputObject): seq<string>
  {
    (if o.binary.Some? then ["binary"] else [])
    + (if o.numeric.Some? then ["numeric"] else [])
    + (if o.enum.Some? then ["enum"] else [])
  }

  datatype CreateDeviceInputDevice = CreateDeviceInputDevice(
    description: Option<string>,
    name: Option<string>,
    powerSource: Option<string>,
    capabilities: Option<seq<CapabilityInputObject>>)

  datatype CreateDeviceInput = CreateDeviceInput(device: CreateDeviceInputDevice, controller: string)

  datatype CreateManyDevicesInput = CreateManyDevicesInput(devices: seq<CreateDeviceInputDevice>, controller: string)

  datatype UnregisterDeviceInputDevice = UnregisterDeviceInputDevice(id: string)
}
