// The device-information side of src/device_information.cpp: the record the
// bridge fills from an /oic/d and /oic/p representation, the HAN-FUN
// attribute list it reads identities from, and the protocol-independent id.
module DeviceInformation {
  import opened Wrappers
  import opened Text
  import opened Rep
  import Hash

  // ---------------------------------------------------------------------
  // HAN-FUN Device Information attributes
  // ---------------------------------------------------------------------

  /** HF::UID::UID by kind; only a URI is ever hashed. */
  datatype Uid = NoneUid | DectUid(rfpi: seq<Hash.byte>) | MacUid(mac: seq<Hash.byte>) | UriUid(uri: string)

  datatype NameUnit = NameUnit(id: nat, name: string)

  /**
   * One attribute of the HAN-FUN Device Information interface. The
   * constructor is the attribute's uid and its field the value
   * HF::Attributes::adapt yields for that uid.
   */
  datatype Attribute =
    | CoreVersion(version: uint8)
    | ProfileVersion(version: uint8)
    | InterfaceVersion(version: uint8)
    | AppVersion(text: string)
    | HardwareVersion(text: string)
    | EmcAttr(emc: uint16)
    | ManufacturerName(text: string)
    | Location(text: string)
    | FriendlyName(units: seq<NameUnit>)
    | UidAttr(uid: Uid)
    | SerialNumber(text: string)
    | OtherAttribute(code: nat)

  datatype AttrId =
    | CoreVersionId | ProfileVersionId | InterfaceVersionId | AppVersionId | HardwareVersionId
    | EmcId | ManufacturerNameId | LocationId | FriendlyNameId | UidId | SerialNumberId | OtherId(code: nat)

  function IdOf(a: Attribute): AttrId {
    match a
    case CoreVersion(_) => CoreVersionId
    case ProfileVersion(_) => ProfileVersionId
    case InterfaceVersion(_) => InterfaceVersionId
    case AppVersion(_) => AppVersionId
    case HardwareVersion(_) => HardwareVersionId
    case EmcAttr(_) => EmcId
    case ManufacturerName(_) => ManufacturerNameId
    case Location(_) => LocationId
    case FriendlyName(_) => FriendlyNameId
    case UidAttr(_) => UidId
    case SerialNumber(_) => SerialNumberId
    case OtherAttribute(c) => OtherId(c)
  }

  /** std::find_if(..., HasAttribute(id)): the index of the first attribute with that uid, or |attrs|. */
  function AttrIndex(attrs: seq<Attribute>, id: AttrId, i: nat): (k: nat)
    requires i <= |attrs|
    decreases |attrs| - i
    ensures i <= k <= |attrs|
    ensures k < |attrs| ==> IdOf(attrs[k]) == id
    ensures forall j :: i <= j < k ==> IdOf(attrs[j]) != id
  {
    if i == |attrs| then i
    else if IdOf(attrs[i]) == id then i
    else AttrIndex(attrs, id, i + 1)
  }

  /** The first attribute with uid `id`, if any. */
  function FindAttribute(attrs: seq<Attribute>, id: AttrId): (r: Option<Attribute>)
    ensures r.Some? <==> exists j :: 0 <= j < |attrs| && IdOf(attrs[j]) == id
    ensures r.Some? ==> IdOf(r.value) == id
  {
    var k := AttrIndex(attrs, id, 0);
    if k < |attrs| then Some(attrs[k]) else None
  }

  /** The first attribute with a uid is what a lookup finds, whatever follows. */
  lemma FindFirstAttribute(attrs: seq<Attribute>, k: nat)
    requires k < |attrs| && forall j :: 0 <= j < k ==> IdOf(attrs[j]) != IdOf(attrs[k])
    ensures FindAttribute(attrs, IdOf(attrs[k])) == Some(attrs[k])
  {
    var i := AttrIndex(attrs, IdOf(attrs[k]), 0);
    assert i <= k;
  }

  // ---------------------------------------------------------------------
  // Protocol-independent id
  // ---------------------------------------------------------------------

  /**
   * The UUID the UID attribute determines: none without a UID attribute,
   * the hashed URI for a URI UID, and for any other kind the uninitialised
   * `OCUUIdentity` on the stack, which stands here as `indeterminate`.
   */
  function AttributeUuid(attrs: seq<Attribute>, sha1: seq<Hash.byte> -> Hash.Digest, indeterminate: Hash.Uuid): Option<Hash.Uuid> {
    match FindAttribute(attrs, UidId)
    case Some(UidAttr(UriUid(uri))) => Some(Hash.StampAsWritten(sha1(Hash.UidInput(Some(uri)))))
    case Some(_) => Some(indeterminate)
    case None => None
  }

  /**
   * GetProtocolIndependentId(attributes, piid): fails without a UID
   * attribute, otherwise formats the id (OCConvertUuidToString is
   * `uuidString`, taken to succeed).
   */
  method ProtocolIndependentId(attrs: seq<Attribute>, sha1: seq<Hash.byte> -> Hash.Digest,
                               uuidString: Hash.Uuid -> string, indeterminate: Hash.Uuid)
    returns (piid: Option<string>)
    ensures piid.None? <==> FindAttribute(attrs, UidId).None?
    ensures piid.Some? ==> piid.value == uuidString(AttributeUuid(attrs, sha1, indeterminate).value)
  {
    var uid := FindAttribute(attrs, UidId);
    if uid.None? {
      return None;
    }
    var id := indeterminate;
    match uid.value {
      case UidAttr(UriUid(uri)) =>
        id := Hash.HashUid(sha1, Some(uri));
      case _ =>
    }
    piid := Some(uuidString(id));
  }

  /**
   * A URI UID gives an id that depends on nothing but the URI, with the
   * nibble 5 stamped into byte 7 and the RFC 4122 variant bits into byte 8.
   */
  lemma UriPiidIsNameBased(attrs: seq<Attribute>, sha1: seq<Hash.byte> -> Hash.Digest, indeterminate: Hash.Uuid, uri: string)
    requires FindAttribute(attrs, UidId) == Some(UidAttr(UriUid(uri)))
    ensures var id := AttributeUuid(attrs, sha1, indeterminate);
            && id == Some(Hash.StampAsWritten(sha1(Hash.UidInput(Some(uri)))))
            && id.value[7] >> 4 == 5 && id.value[8] >> 6 == 2
  {
    Hash.StampAsWrittenBits(sha1(Hash.UidInput(Some(uri))));
  }

  /** Two attribute lists whose first UIDs are the same URI give the same id. */
  lemma SameUriSameUuid(a: seq<Attribute>, b: seq<Attribute>, sha1: seq<Hash.byte> -> Hash.Digest,
                        x: Hash.Uuid, y: Hash.Uuid, uri: string)
    requires FindAttribute(a, UidId) == Some(UidAttr(UriUid(uri)))
    requires FindAttribute(b, UidId) == Some(UidAttr(UriUid(uri)))
    ensures AttributeUuid(a, sha1, x) == AttributeUuid(b, sha1, y)
  {
  }

  /**
   * GetProtocolIndependentId(ipui, emc, piid): fails unless both pointers
   * are there, otherwise hashes the 5 IPUI and 2 EMC bytes.
   */
  method DeviceProtocolIndependentId(ipui: Option<seq<Hash.byte>>, emc: Option<seq<Hash.byte>>,
                                     sha1: seq<Hash.byte> -> Hash.Digest, uuidString: Hash.Uuid -> string)
    returns (piid: Option<string>)
    requires ipui.Some? ==> |ipui.value| == 5
    requires emc.Some? ==> |emc.value| == 2
    ensures piid.None? <==> ipui.None? || emc.None?
    ensures piid.Some? ==> piid.value == uuidString(Hash.StampAsWritten(sha1(Hash.DeviceInput(ipui, emc))))
  {
    if ipui.Some? && emc.Some? {
      var id := Hash.HashDevice(sha1, ipui, emc);
      return Some(uuidString(id));
    }
    return None;
  }

  /**
   * GetPlatformId(attributes, pi): as the piid, but it formats whatever id
   * it has, the uninitialised one included when there is no UID attribute.
   */
  method PlatformId(attrs: seq<Attribute>, sha1: seq<Hash.byte> -> Hash.Digest,
                    uuidString: Hash.Uuid -> string, indeterminate: Hash.Uuid)
    returns (pi: string)
    ensures pi == uuidString(AttributeUuid(attrs, sha1, indeterminate).GetOr(indeterminate))
  {
    var id := indeterminate;
    var uid := FindAttribute(attrs, UidId);
    if uid.Some? {
      match uid.value {
        case UidAttr(UriUid(uri)) =>
          id := Hash.HashUid(sha1, Some(uri));
        case _ =>
      }
    }
    pi := uuidString(id);
  }

  /** GetPlatformId(ipui, emc, pi): the device hash when both pointers are there, else the uninitialised id. */
  method DevicePlatformId(ipui: Option<seq<Hash.byte>>, emc: Option<seq<Hash.byte>>,
                          sha1: seq<Hash.byte> -> Hash.Digest, uuidString: Hash.Uuid -> string, indeterminate: Hash.Uuid)
    returns (pi: string)
    requires ipui.Some? ==> |ipui.value| == 5
    requires emc.Some? ==> |emc.value| == 2
    ensures ipui.Some? && emc.Some? ==> pi == uuidString(Hash.StampAsWritten(sha1(Hash.DeviceInput(ipui, emc))))
    ensures ipui.None? || emc.None? ==> pi == uuidString(indeterminate)
  {
    var id := indeterminate;
    if ipui.Some? && emc.Some? {
      id := Hash.HashDevice(sha1, ipui, emc);
    }
    pi := uuidString(id);
  }

  /** GetModelNumber: the first serial-number attribute, else the string as it was. */
  function ModelNumber(attrs: seq<Attribute>, modelNumber: string): (r: string)
    ensures FindAttribute(attrs, SerialNumberId).None? ==> r == modelNumber
    ensures forall k :: 0 <= k < |attrs| && attrs[k].SerialNumber? && (forall j :: 0 <= j < k ==> !attrs[j].SerialNumber?)
              ==> r == attrs[k].text
  {
    var k := AttrIndex(attrs, SerialNumberId, 0);
    if k < |attrs| then attrs[k].text else modelNumber
  }

  // ---------------------------------------------------------------------
  // DeviceInformation
  // ---------------------------------------------------------------------

  /** The six strings a DeviceInformation holds. */
  datatype Info = Info(applicationVersion: string, deviceUid: string, friendlyName: string,
                       hardwareVersion: string, manufacturerName: string, serialNumber: string)

  /** A string field after a guarded `OCRepPayloadGetPropString`: the C string when the member is there. */
  function Assigned(current: string, value: Option<string>): string {
    match value
    case Some(s) => CPrefix(s)
    case None => current
  }

  /** The manufacturer read from "dmn": element 0 only, and only with both "language" and "value". */
  function ManufacturerValue(payload: Payload): Option<string> {
    match GetObjectArray(payload, "dmn")
    case Some(arr) =>
      if |arr| > 0 && GetString(arr[0], "language").Some? then GetString(arr[0], "value") else None
    case None => None
  }

  /** What DeviceInformation::Set does to the six fields. */
  function Apply(info: Info, payload: Payload): (r: Info)
    ensures GetString(payload, "n").None? ==> r.friendlyName == info.friendlyName
    ensures GetString(payload, "di").None? ==> r.serialNumber == info.serialNumber
    ensures GetString(payload, "sv").None? ==> r.applicationVersion == info.applicationVersion
    ensures GetString(payload, "mnhw").None? ==> r.hardwareVersion == info.hardwareVersion
    ensures GetString(payload, "pi").None? ==> r.deviceUid == info.deviceUid
    ensures ManufacturerValue(payload).None? ==> r.manufacturerName == info.manufacturerName
  {
    Info(applicationVersion := Assigned(info.applicationVersion, GetString(payload, "sv")),
         deviceUid := Assigned(info.deviceUid, GetString(payload, "pi")),
         friendlyName := Assigned(info.friendlyName, GetString(payload, "n")),
         hardwareVersion := Assigned(info.hardwareVersion, GetString(payload, "mnhw")),
         manufacturerName := Assigned(info.manufacturerName, ManufacturerValue(payload)),
         serialNumber := Assigned(info.serialNumber, GetString(payload, "di")))
  }

  /** Each property present is read back from its field; applying the same representation again changes nothing. */
  lemma ApplyReadsBack(info: Info, payload: Payload)
    ensures var r := Apply(info, payload);
            && (GetString(payload, "n").Some? ==> r.friendlyName == CPrefix(GetString(payload, "n").value))
            && (GetString(payload, "di").Some? ==> r.serialNumber == CPrefix(GetString(payload, "di").value))
            && (GetString(payload, "sv").Some? ==> r.applicationVersion == CPrefix(GetString(payload, "sv").value))
            && (GetString(payload, "mnhw").Some? ==> r.hardwareVersion == CPrefix(GetString(payload, "mnhw").value))
            && (GetString(payload, "pi").Some? ==> r.deviceUid == CPrefix(GetString(payload, "pi").value))
            && (ManufacturerValue(payload).Some? ==> r.manufacturerName == CPrefix(ManufacturerValue(payload).value))
            && Apply(r, payload) == r
  {
  }

  /** A representation with a "dmn" array whose first entry lacks "language" leaves the manufacturer alone. */
  lemma ManufacturerNeedsLanguage(info: Info, payload: Payload, arr: seq<Payload>)
    requires GetObjectArray(payload, "dmn") == Some(arr) && |arr| > 0
    requires GetString(arr[0], "language").None?
    ensures Apply(info, payload).manufacturerName == info.manufacturerName
  {
  }

  class DeviceInformation {
    var applicationVersion: string
    var deviceUid: string
    var friendlyName: string
    var hardwareVersion: string
    var manufacturerName: string
    var serialNumber: string

    constructor()
      ensures Fields() == Info("", "", "", "", "", "")
    {
      applicationVersion, deviceUid, friendlyName := "", "", "";
      hardwareVersion, manufacturerName, serialNumber := "", "", "";
    }

    function Fields(): Info
      reads this
    {
      Info(applicationVersion, deviceUid, friendlyName, hardwareVersion, manufacturerName, serialNumber)
    }

    method SetApplicationVersion(version: string)
      modifies this
      ensures Fields() == old(Fields()).(applicationVersion := CPrefix(version))
    {
      applicationVersion := CPrefix(version);
    }

    method SetDeviceUid(uid: string)
      modifies this
      ensures Fields() == old(Fields()).(deviceUid := CPrefix(uid))
    {
      deviceUid := CPrefix(uid);
    }

    method SetFriendlyName(name: string)
      modifies this
      ensures Fields() == old(Fields()).(friendlyName := CPrefix(name))
    {
      friendlyName := CPrefix(name);
    }

    method SetHardwareVersion(version: string)
      modifies this
      ensures Fields() == old(Fields()).(hardwareVersion := CPrefix(version))
    {
      hardwareVersion := CPrefix(version);
    }

    method SetManufacturerName(manufacturer: string)
      modifies this
      ensures Fields() == old(Fields()).(manufacturerName := CPrefix(manufacturer))
    {
      manufacturerName := CPrefix(manufacturer);
    }

    method SetSerialNumber(serial: string)
      modifies this
      ensures Fields() == old(Fields()).(serialNumber := CPrefix(serial))
    {
      serialNumber := CPrefix(serial);
    }

    /** DeviceInformation::Set: each field guarded by its own lookup, in the source's order. */
    method Set(payload: Payload)
      modifies this
      ensures Fields() == Apply(old(Fields()), payload)
    {
      var value := GetString(payload, "n");
      if value.Some? { SetFriendlyName(value.value); }
      value := GetString(payload, "di");
      if value.Some? { SetSerialNumber(value.value); }
      var arr := GetObjectArray(payload, "dmn");
      if arr.Some? {
        var i := 0;
        while i < |arr.value|
          invariant i <= |arr.value|
          invariant i == 0 ==> manufacturerName == old(manufacturerName)
          invariant i > 0 ==> manufacturerName == Assigned(old(manufacturerName), ManufacturerValue(payload))
          invariant applicationVersion == old(applicationVersion) && deviceUid == old(deviceUid)
          invariant hardwareVersion == old(hardwareVersion)
          invariant friendlyName == Assigned(old(friendlyName), GetString(payload, "n"))
          invariant serialNumber == Assigned(old(serialNumber), GetString(payload, "di"))
        {
          if i == 0 {
            var language := GetString(arr.value[i], "language");
            if language.Some? {
              value := GetString(arr.value[i], "value");
              if value.Some? { SetManufacturerName(value.value); }
            }
          }
          i := i + 1;
        }
      }
      value := GetString(payload, "sv");
      if value.Some? { SetApplicationVersion(value.value); }
      value := GetString(payload, "mnhw");
      if value.Some? { SetHardwareVersion(value.value); }
      value := GetString(payload, "pi");
      if value.Some? { SetDeviceUid(value.value); }
    }
  }
}
