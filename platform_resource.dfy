// src/platform_resource.cpp: the /oic/p properties a virtual OCF device
// gets from its HAN-FUN Device Information attributes, written into the
// stack's platform property store.
module PlatformResource {
  import opened Wrappers
  import opened Text
  import opened DeviceInformation
  import opened PropertyStore
  import Hash
  import Resources

  /** GetManufacturerName: the first manufacturer-name attribute, else the bridge's own manufacturer. */
  function ManufacturerText(bridgeManufacturer: string, attrs: seq<Attribute>): (r: string)
    ensures FindAttribute(attrs, ManufacturerNameId).None? ==> r == bridgeManufacturer
    ensures FindAttribute(attrs, ManufacturerNameId).Some? ==> r == FindAttribute(attrs, ManufacturerNameId).value.text
  {
    match FindAttribute(attrs, ManufacturerNameId)
    case Some(ManufacturerName(s)) => s
    case _ => bridgeManufacturer
  }

  /** GetHardwareVersion: the first hardware-version attribute, else the string as it was. */
  function HardwareText(attrs: seq<Attribute>, hardwareVersion: string): (r: string)
    ensures FindAttribute(attrs, HardwareVersionId).None? ==> r == hardwareVersion
    ensures FindAttribute(attrs, HardwareVersionId).Some? ==> r == FindAttribute(attrs, HardwareVersionId).value.text
  {
    match FindAttribute(attrs, HardwareVersionId)
    case Some(HardwareVersion(s)) => s
    case _ => hardwareVersion
  }

  /**
   * GetVendorId: the decimal text of the first EMC attribute, "" for an
   * EMC of 0, and the string as it was when there is no EMC attribute.
   */
  function VendorId(attrs: seq<Attribute>, vendorId: string): (r: string)
    ensures FindAttribute(attrs, EmcId).None? ==> r == vendorId
    ensures FindAttribute(attrs, EmcId).Some? ==> (r == "" <==> FindAttribute(attrs, EmcId).value.emc == 0)
    ensures FindAttribute(attrs, EmcId).Some? ==> AllDigits(r)
  {
    match FindAttribute(attrs, EmcId)
    case Some(EmcAttr(e)) => if e != 0 then NatToDecimal(e as nat) else ""
    case _ => vendorId
  }

  /** A non-zero EMC reads back from the vendor id with atoi. */
  lemma VendorIdReadsBack(attrs: seq<Attribute>)
    requires FindAttribute(attrs, EmcId).Some? && FindAttribute(attrs, EmcId).value.emc != 0
    ensures Atoi(VendorId(attrs, "")) == FindAttribute(attrs, EmcId).value.emc as int
  {
    var e := FindAttribute(attrs, EmcId).value.emc;
    AtoiOfDecimal(e as nat, []);
    assert NatToDecimal(e as nat) + [] == NatToDecimal(e as nat);
  }

  /** Equal non-zero EMCs, and only those, give equal vendor ids. */
  lemma VendorIdInjective(a: seq<Attribute>, b: seq<Attribute>)
    requires FindAttribute(a, EmcId).Some? && FindAttribute(b, EmcId).Some?
    requires FindAttribute(a, EmcId).value.emc != 0 && FindAttribute(b, EmcId).value.emc != 0
    ensures VendorId(a, "") == VendorId(b, "") <==> FindAttribute(a, EmcId).value.emc == FindAttribute(b, EmcId).value.emc
  {
    if VendorId(a, "") == VendorId(b, "") {
      VendorIdReadsBack(a);
      VendorIdReadsBack(b);
    }
  }

  /**
   * The writes SetPlatformProperties(bridge manufacturer, attributes)
   * attempts, in order: "pi" and "mnmn" always, then "mnmo", "mnhw" and
   * "vid" each only when non-empty.
   */
  function PlatformWrites(pi: string, mnmn: string, mnmo: string, mnhw: string, vid: string): seq<Write> {
    [Write("pi", pi)] + ([Write("mnmn", mnmn)]
      + Guarded(mnmo != "", Write("mnmo", mnmo), Guarded(mnhw != "", Write("mnhw", mnhw), Guarded(vid != "", Write("vid", vid), []))))
  }

  /** The platform writes for a device's attributes and the bridge's manufacturer. */
  function AttributeWrites(bridgeManufacturer: string, attrs: seq<Attribute>, pi: string): seq<Write> {
    PlatformWrites(pi, ManufacturerText(bridgeManufacturer, attrs), ModelNumber(attrs, ""), HardwareText(attrs, ""), VendorId(attrs, ""))
  }

  /** The optional tail: each of "mnmo", "mnhw" and "vid" is there exactly when its text is non-empty. */
  lemma OptionalPlatformNames(mnmo: string, mnhw: string, vid: string)
    ensures var t := Guarded(mnmo != "", Write("mnmo", mnmo), Guarded(mnhw != "", Write("mnhw", mnhw), Guarded(vid != "", Write("vid", vid), [])));
            && (Write("mnmo", mnmo) in t <==> mnmo != "")
            && (Write("mnhw", mnhw) in t <==> mnhw != "")
            && (Write("vid", vid) in t <==> vid != "")
            && forall w :: w in t ==> w.name in {"mnmo", "mnhw", "vid"}
  {
    var t3 := Guarded(vid != "", Write("vid", vid), []);
    var t2 := Guarded(mnhw != "", Write("mnhw", mnhw), t3);
    var t1 := Guarded(mnmo != "", Write("mnmo", mnmo), t2);
    assert forall w :: w in t3 ==> w == Write("vid", vid);
    assert forall w :: w in t2 ==> w == Write("mnhw", mnhw) || w in t3;
    assert forall w :: w in t1 ==> w == Write("mnmo", mnmo) || w in t2;
    assert Write("vid", vid) in t3 <==> vid != "";
  }

  /**
   * What is written: "pi" first and "mnmn" second, always; "mnmo",
   * "mnhw" and "vid" only when non-empty; no other platform property.
   */
  lemma PlatformWritesNames(pi: string, mnmn: string, mnmo: string, mnhw: string, vid: string)
    ensures var ws := PlatformWrites(pi, mnmn, mnmo, mnhw, vid);
            && |ws| >= 2 && ws[0] == Write("pi", pi) && ws[1] == Write("mnmn", mnmn)
            && (Write("mnmo", mnmo) in ws <==> mnmo != "")
            && (Write("mnhw", mnhw) in ws <==> mnhw != "")
            && (Write("vid", vid) in ws <==> vid != "")
            && forall w :: w in ws ==> w.name in {"pi", "mnmn", "mnmo", "mnhw", "vid"}
  {
    var t := Guarded(mnmo != "", Write("mnmo", mnmo), Guarded(mnhw != "", Write("mnhw", mnhw), Guarded(vid != "", Write("vid", vid), [])));
    OptionalPlatformNames(mnmo, mnhw, vid);
    var ws := PlatformWrites(pi, mnmn, mnmo, mnhw, vid);
    assert ws == [Write("pi", pi), Write("mnmn", mnmn)] + t;
    assert forall w :: w in ws ==> w == ws[0] || w == ws[1] || w in t;
  }

  /**
   * SetPlatformProperties(bridge manufacturer, attributes): the writes of
   * AttributeWrites, stopping at the first one the stack refuses; the
   * outcome of the last write, "vid", is the result whatever it is.
   */
  method SetPlatformProperties(store: Store, bridgeManufacturer: string, attrs: seq<Attribute>,
                               sha1: seq<Hash.byte> -> Hash.Digest, uuidString: Hash.Uuid -> string,
                               indeterminate: Hash.Uuid)
    returns (result: int)
    modifies store
    ensures (store.values, result)
            == Run(old(store.values), store.outcome,
                   AttributeWrites(bridgeManufacturer, attrs, uuidString(AttributeUuid(attrs, sha1, indeterminate).GetOr(indeterminate))))
  {
    ghost var o := store.outcome;
    ghost var v := store.values;
    var pi := PlatformId(attrs, sha1, uuidString, indeterminate);
    var mnmn := ManufacturerText(bridgeManufacturer, attrs);
    var mnmo := ModelNumber(attrs, "");
    var mnhw := HardwareText(attrs, "");
    var vid := VendorId(attrs, "");
    ghost var t3 := Guarded(vid != "", Write("vid", vid), []);
    ghost var t2 := Guarded(mnhw != "", Write("mnhw", mnhw), t3);
    ghost var t1 := Guarded(mnmo != "", Write("mnmo", mnmo), t2);
    ghost var afterPi := [Write("mnmn", mnmn)] + t1;
    ghost var goal := Run(v, o, PlatformWrites(pi, mnmn, mnmo, mnhw, vid));
    result := store.SetPropertyValue("pi", pi);
    WriteStep(v, o, Write("pi", pi), afterPi, result, store.values);
    if result != Resources.StackOk {
      return;
    }
    v := store.values;
    result := store.SetPropertyValue("mnmn", mnmn);
    WriteStep(v, o, Write("mnmn", mnmn), t1, result, store.values);
    if result != Resources.StackOk {
      return;
    }
    assert goal == Run(store.values, o, t1);
    if mnmo != "" {
      v := store.values;
      result := store.SetPropertyValue("mnmo", mnmo);
      WriteStep(v, o, Write("mnmo", mnmo), t2, result, store.values);
      if result != Resources.StackOk {
        return;
      }
    }
    assert goal == Run(store.values, o, t2);
    if mnhw != "" {
      v := store.values;
      result := store.SetPropertyValue("mnhw", mnhw);
      WriteStep(v, o, Write("mnhw", mnhw), t3, result, store.values);
      if result != Resources.StackOk {
        return;
      }
    }
    assert goal == Run(store.values, o, t3);
    if vid != "" {
      v := store.values;
      result := store.SetPropertyValue("vid", vid);
      WriteStep(v, o, Write("vid", vid), [], result, store.values);
    }
  }

  /** SetPlatformProperties(ipui, emc): the hashed platform id is the only write. */
  method SetDevicePlatformProperties(store: Store, ipui: Option<seq<Hash.byte>>, emc: Option<seq<Hash.byte>>,
                                     sha1: seq<Hash.byte> -> Hash.Digest, uuidString: Hash.Uuid -> string,
                                     indeterminate: Hash.Uuid)
    returns (result: int)
    requires ipui.Some? ==> |ipui.value| == 5
    requires emc.Some? ==> |emc.value| == 2
    modifies store
    ensures var pi := if ipui.Some? && emc.Some? then uuidString(Hash.StampAsWritten(sha1(Hash.DeviceInput(ipui, emc))))
                      else uuidString(indeterminate);
            result == store.outcome("pi", CPrefix(pi))
            && store.values == if result == Resources.StackOk then old(store.values)["pi" := CPrefix(pi)] else old(store.values)
  {
    var pi := DevicePlatformId(ipui, emc, sha1, uuidString, indeterminate);
    result := store.SetPropertyValue("pi", pi);
  }
}
