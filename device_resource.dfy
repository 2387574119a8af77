// src/device_resource.cpp: the /oic/d properties a virtual OCF device gets
// from its HAN-FUN Device Information attributes, written into the
// stack's device property store.
module DeviceResource {
  import opened Wrappers
  import opened Text
  import opened DeviceInformation
  import opened PropertyStore
  import Hash
  import Resources

  /** The stack's OC_SPEC_VERSION, as IoTivity's octypes.h defines it. */
  const SpecVersion: string := "ocf.1.1.0"

  /** The index of the first unit with id 0, or |units|. */
  function UnitZero(units: seq<NameUnit>, i: nat): (k: nat)
    requires i <= |units|
    decreases |units| - i
    ensures i <= k <= |units|
    ensures k < |units| ==> units[k].id == 0
    ensures forall j :: i <= j < k ==> units[j].id != 0
  {
    if i == |units| || units[i].id == 0 then i else UnitZero(units, i + 1)
  }

  /** GetDeviceName: the friendly name of unit 0 when there is one, else the string as it was. */
  function DeviceName(attrs: seq<Attribute>, deviceName: string): (r: string)
    ensures (match FindAttribute(attrs, FriendlyNameId)
             case Some(FriendlyName(units)) =>
               (exists k :: 0 <= k < |units| && units[k].id == 0 && r == units[k].name
                            && forall j :: 0 <= j < k ==> units[j].id != 0)
               || ((forall j :: 0 <= j < |units| ==> units[j].id != 0) && r == deviceName)
             case _ => r == deviceName)
  {
    match FindAttribute(attrs, FriendlyNameId)
    case Some(FriendlyName(units)) =>
      var k := UnitZero(units, 0);
      if k < |units| then units[k].name else deviceName
    case _ => deviceName
  }

  /** The three version attributes, when all of them are there. */
  function Versions(attrs: seq<Attribute>): Option<(uint8, uint8, uint8)> {
    match (FindAttribute(attrs, CoreVersionId), FindAttribute(attrs, ProfileVersionId), FindAttribute(attrs, InterfaceVersionId))
    case (Some(CoreVersion(c)), Some(ProfileVersion(p)), Some(InterfaceVersion(i))) => Some((c, p, i))
    case _ => None
  }

  /** The data-model version text for core, profile and interface versions c, p and i. */
  function VersionText(c: nat, p: nat, i: nat): string {
    CoreLabel + (NatToDecimal(c) + (ProfileLabel + (NatToDecimal(p) + (InterfaceLabel + NatToDecimal(i)))))
  }

  /** GetDataModelVersion: appends the data-model version when all three version attributes exist. */
  function DataModelVersion(attrs: seq<Attribute>, dmv: string): (r: string)
    ensures Versions(attrs).None? ==> r == dmv
    ensures Versions(attrs).Some? ==> r == dmv + VersionText(Versions(attrs).value.0, Versions(attrs).value.1, Versions(attrs).value.2)
  {
    match Versions(attrs)
    case Some((c, p, i)) => dmv + VersionText(c, p, i)
    case None => dmv
  }

  /** DEVICE_DATA_MODEL_VERSION (src/resource.h:32) followed by the core label. */
  const CoreLabel: string := "ocf.res.1.1.0, x.core."
  const ProfileLabel: string := ", x.profile."
  const InterfaceLabel: string := ", x.interface."

  /** The data-model version text with the three decimal texts written out. */
  function Labelled(dc: string, dp: string, di: string): string {
    CoreLabel + (dc + (ProfileLabel + (dp + (InterfaceLabel + di))))
  }

  /**
   * The three versions can be read back from the data-model version text:
   * atoi right after each label yields the version written there (dc, dp
   * and di name the three decimal texts).
   */
  lemma VersionTextReadsBack(c: nat, p: nat, i: nat, dc: string, dp: string, di: string)
    requires dc == NatToDecimal(c) && dp == NatToDecimal(p) && di == NatToDecimal(i)
    ensures VersionText(c, p, i) == Labelled(dc, dp, di)
    ensures var s := Labelled(dc, dp, di);
            && |CoreLabel| + |dc| + |ProfileLabel| + |dp| + |InterfaceLabel| + |di| == |s|
            && s[..|CoreLabel|] == CoreLabel
            && Atoi(s[|CoreLabel|..]) == c
            && Atoi(s[|CoreLabel| + |dc| + |ProfileLabel|..]) == p
            && Atoi(s[|CoreLabel| + |dc| + |ProfileLabel| + |dp| + |InterfaceLabel|..]) == i
  {
    CoreReadsBack(c, dc, dp, di);
    ProfileReadsBack(p, dc, dp, di);
    InterfaceReadsBack(i, dc, dp, di);
  }

  lemma CoreReadsBack(c: nat, dc: string, dp: string, di: string)
    requires dc == NatToDecimal(c) && IsCString(dp) && IsCString(di)
    ensures Atoi(Labelled(dc, dp, di)[|CoreLabel|..]) == c
  {
    assert IsCString(ProfileLabel) && ProfileLabel[0] == ',';
    assert IsCString(InterfaceLabel);
    var x4 := InterfaceLabel + di;
    var x3 := dp + x4;
    var x2 := ProfileLabel + x3;
    CStringConcat(InterfaceLabel, di);
    CStringConcat(dp, x4);
    CStringConcat(ProfileLabel, x3);
    ReadAfter(CoreLabel, c, dc, x2);
  }

  lemma ProfileReadsBack(p: nat, dc: string, dp: string, di: string)
    requires dp == NatToDecimal(p) && IsCString(di)
    ensures Atoi(Labelled(dc, dp, di)[|CoreLabel| + |dc| + |ProfileLabel|..]) == p
  {
    assert IsCString(InterfaceLabel) && InterfaceLabel[0] == ',';
    var x4 := InterfaceLabel + di;
    CStringConcat(InterfaceLabel, di);
    assert Labelled(dc, dp, di) == (CoreLabel + dc + ProfileLabel) + (dp + x4);
    ReadAfter(CoreLabel + dc + ProfileLabel, p, dp, x4);
  }

  lemma InterfaceReadsBack(i: nat, dc: string, dp: string, di: string)
    requires di == NatToDecimal(i)
    ensures Atoi(Labelled(dc, dp, di)[|CoreLabel| + |dc| + |ProfileLabel| + |dp| + |InterfaceLabel|..]) == i
  {
    assert Labelled(dc, dp, di) == (CoreLabel + dc + ProfileLabel + dp + InterfaceLabel) + (di + []);
    ReadAfter(CoreLabel + dc + ProfileLabel + dp + InterfaceLabel, i, di, []);
  }

  /** atoi of the text after `prefix` reads back the number written there. */
  lemma ReadAfter(prefix: string, n: nat, d: string, rest: string)
    requires d == NatToDecimal(n)
    requires rest == [] || (rest[0] == ',' && IsCString(rest))
    ensures Atoi((prefix + (d + rest))[|prefix|..]) == n
  {
    SuffixAfter(prefix, d + rest);
    AtoiOfDecimal(n, rest);
  }

  /** Each version written into the data-model version string reads back from it. */
  lemma DataModelVersionReadsBack(attrs: seq<Attribute>, dc: string, dp: string, di: string)
    requires Versions(attrs).Some?
    requires dc == NatToDecimal(Versions(attrs).value.0) && dp == NatToDecimal(Versions(attrs).value.1)
    requires di == NatToDecimal(Versions(attrs).value.2)
    ensures var s := DataModelVersion(attrs, "");
            && |CoreLabel| + |dc| + |ProfileLabel| + |dp| + |InterfaceLabel| + |di| == |s|
            && s[..|CoreLabel|] == CoreLabel
            && Atoi(s[|CoreLabel|..]) == Versions(attrs).value.0
            && Atoi(s[|CoreLabel| + |dc| + |ProfileLabel|..]) == Versions(attrs).value.1
            && Atoi(s[|CoreLabel| + |dc| + |ProfileLabel| + |dp| + |InterfaceLabel|..]) == Versions(attrs).value.2
  {
    var (c, p, i) := Versions(attrs).value;
    VersionTextReadsBack(c, p, i, dc, dp, di);
    assert DataModelVersion(attrs, "") == Labelled(dc, dp, di);
  }

  lemma SuffixAfter(a: string, b: string)
    ensures (a + b)[|a|..] == b
  {
  }

  /** GetSoftwareVersion: the first application-version attribute, else the string as it was. */
  function SoftwareVersion(attrs: seq<Attribute>, version: string): (r: string)
    ensures FindAttribute(attrs, AppVersionId).None? ==> r == version
    ensures FindAttribute(attrs, AppVersionId).Some? ==> r == FindAttribute(attrs, AppVersionId).value.text
  {
    match FindAttribute(attrs, AppVersionId)
    case Some(AppVersion(s)) => s
    case _ => version
  }

  /**
   * GetLocalizedDescription / GetManufacturerName build a two-entry list
   * ["en", text] in their own copy of the list pointer; the caller's list
   * stays NULL, so SetDeviceProperties never writes "ld" or "dmn".
   */
  function LocalList(attrs: seq<Attribute>, id: AttrId): (built: seq<string>)
    requires id == LocationId || id == ManufacturerNameId
    ensures FindAttribute(attrs, id).Some? <==> |built| == 2
    ensures |built| == 2 ==> built[0] == "en" && built[1] == FindAttribute(attrs, id).value.text
    ensures |built| != 2 ==> built == []
  {
    match FindAttribute(attrs, id)
    case Some(a) => ["en", a.text]
    case None => []
  }

  /** The text the piid buffer holds: the formatted id, or the zeroed buffer when GetProtocolIndependentId fails. */
  function PiidText(attrs: seq<Attribute>, sha1: seq<Hash.byte> -> Hash.Digest,
                    uuidString: Hash.Uuid -> string, indeterminate: Hash.Uuid): string {
    match AttributeUuid(attrs, sha1, indeterminate)
    case Some(id) => uuidString(id)
    case None => ""
  }

  /** The writes after the data-model version: "sv" and "dmno", each only when non-empty. */
  function OptionalWrites(sv: string, mn: string): seq<Write> {
    Guarded(sv != "", Write("sv", sv), Guarded(mn != "", Write("dmno", mn), []))
  }

  /** The writes SetDeviceProperties(attributes) attempts, in order. */
  function DeviceWrites(attrs: seq<Attribute>, piid: string): seq<Write> {
    var name := DeviceName(attrs, "");
    Guarded(name != "", Write("n", name),
      [Write("icv", SpecVersion)] + ([Write("piid", piid)] + ([Write("dmv", DataModelVersion(attrs, ""))]
        + OptionalWrites(SoftwareVersion(attrs, ""), ModelNumber(attrs, "")))))
  }

  /** "sv" and "dmno" are written exactly when non-empty, and they are the only optional writes. */
  lemma OptionalWritesNames(sv: string, mn: string)
    ensures var opt := OptionalWrites(sv, mn);
            && (Write("sv", sv) in opt <==> sv != "")
            && (Write("dmno", mn) in opt <==> mn != "")
            && forall w :: w in opt ==> w.name == "sv" || w.name == "dmno"
  {
    var last := Guarded(mn != "", Write("dmno", mn), []);
    assert forall w :: w in last ==> w == Write("dmno", mn);
    assert Write("dmno", mn) in last <==> mn != "";
  }

  /**
   * What is written: "n" only when the name is non-empty; "icv", "piid"
   * and "dmv" always; "sv" and "dmno" only when non-empty; never "ld" or
   * "dmn", and never "di", which the stack sets itself.
   */
  lemma DeviceWritesNames(attrs: seq<Attribute>, piid: string)
    ensures var ws := DeviceWrites(attrs, piid);
            var name, sv, mn := DeviceName(attrs, ""), SoftwareVersion(attrs, ""), ModelNumber(attrs, "");
            && (name != "" <==> |ws| > 0 && ws[0] == Write("n", name))
            && Write("icv", SpecVersion) in ws && Write("piid", piid) in ws
            && Write("dmv", DataModelVersion(attrs, "")) in ws
            && (Write("sv", sv) in ws <==> sv != "")
            && (Write("dmno", mn) in ws <==> mn != "")
            && forall w :: w in ws ==> w.name != "ld" && w.name != "dmn" && w.name != "di"
  {
    var name, sv, mn := DeviceName(attrs, ""), SoftwareVersion(attrs, ""), ModelNumber(attrs, "");
    var opt := OptionalWrites(sv, mn);
    OptionalWritesNames(sv, mn);
    var body := [Write("icv", SpecVersion)] + ([Write("piid", piid)] + ([Write("dmv", DataModelVersion(attrs, ""))] + opt));
    var ws := DeviceWrites(attrs, piid);
    assert ws == Guarded(name != "", Write("n", name), body);
    BodyNames(SpecVersion, piid, DataModelVersion(attrs, ""), sv, mn, opt, body);
    if name != "" {
      assert ws == [Write("n", name)] + body;
      assert ws[0] == Write("n", name);
      assert forall w :: w in ws ==> w == Write("n", name) || w in body;
    } else {
      assert ws == body;
      assert body[0].name == "icv";
    }
  }

  lemma BodyNames(icv: string, piid: string, dmv: string, sv: string, mn: string, opt: seq<Write>, body: seq<Write>)
    requires body == [Write("icv", icv)] + ([Write("piid", piid)] + ([Write("dmv", dmv)] + opt))
    requires Write("sv", sv) in opt <==> sv != ""
    requires Write("dmno", mn) in opt <==> mn != ""
    requires forall w :: w in opt ==> w.name == "sv" || w.name == "dmno"
    ensures Write("icv", icv) in body && Write("piid", piid) in body && Write("dmv", dmv) in body
    ensures Write("sv", sv) in body <==> sv != ""
    ensures Write("dmno", mn) in body <==> mn != ""
    ensures forall w :: w in body ==> w.name in {"icv", "piid", "dmv", "sv", "dmno"}
  {
    assert body[0] == Write("icv", icv) && body[1] == Write("piid", piid) && body[2] == Write("dmv", dmv);
    assert forall w :: w in body ==> w in opt || w == body[0] || w == body[1] || w == body[2];
  }

  /**
   * SetDeviceProperties(attributes): the writes of DeviceWrites, stopping
   * at the first one the stack refuses.
   */
  method SetDeviceProperties(store: Store, attrs: seq<Attribute>, sha1: seq<Hash.byte> -> Hash.Digest,
                             uuidString: Hash.Uuid -> string, indeterminate: Hash.Uuid)
    returns (result: int)
    modifies store
    ensures (store.values, result)
            == Run(old(store.values), store.outcome, DeviceWrites(attrs, PiidText(attrs, sha1, uuidString, indeterminate)))
  {
    var piidBuffer := ProtocolIndependentId(attrs, sha1, uuidString, indeterminate);
    var piid := piidBuffer.GetOr("");
    ghost var o := store.outcome;
    ghost var v := store.values;
    var name := DeviceName(attrs, "");
    var dmv := DataModelVersion(attrs, "");
    var sv := SoftwareVersion(attrs, "");
    var mn := ModelNumber(attrs, "");
    ghost var last := Guarded(mn != "", Write("dmno", mn), []);
    ghost var opt := OptionalWrites(sv, mn);
    ghost var afterDmv := [Write("dmv", dmv)] + opt;
    ghost var afterPiid := [Write("piid", piid)] + afterDmv;
    ghost var afterName := [Write("icv", SpecVersion)] + afterPiid;
    ghost var goal := Run(v, o, DeviceWrites(attrs, piid));
    assert DeviceWrites(attrs, piid) == Guarded(name != "", Write("n", name), afterName);
    result := Resources.StackOk;
    if name != "" {
      result := store.SetPropertyValue("n", name);
      WriteStep(v, o, Write("n", name), afterName, result, store.values);
      if result != Resources.StackOk {
        return;
      }
    }
    assert goal == Run(store.values, o, afterName);
    v := store.values;
    result := store.SetPropertyValue("icv", SpecVersion);
    WriteStep(v, o, Write("icv", SpecVersion), afterPiid, result, store.values);
    if result != Resources.StackOk {
      return;
    }
    v := store.values;
    result := store.SetPropertyValue("piid", piid);
    WriteStep(v, o, Write("piid", piid), afterDmv, result, store.values);
    if result != Resources.StackOk {
      return;
    }
    v := store.values;
    result := store.SetPropertyValue("dmv", dmv);
    WriteStep(v, o, Write("dmv", dmv), opt, result, store.values);
    if result != Resources.StackOk {
      return;
    }
    assert goal == Run(store.values, o, opt);
    if sv != "" {
      v := store.values;
      result := store.SetPropertyValue("sv", sv);
      WriteStep(v, o, Write("sv", sv), last, result, store.values);
      if result != Resources.StackOk {
        return;
      }
    }
    assert goal == Run(store.values, o, last);
    if mn != "" {
      v := store.values;
      result := store.SetPropertyValue("dmno", mn);
      WriteStep(v, o, Write("dmno", mn), [], result, store.values);
    }
  }

  /** SetDeviceProperties(ipui, emc): name "sample", the spec version, the hashed piid and data-model version "1". */
  function FixedDeviceWrites(piid: string): seq<Write> {
    [Write("n", "sample")] + ([Write("icv", SpecVersion)] + ([Write("piid", piid)] + [Write("dmv", "1")]))
  }

  method SetFixedDeviceProperties(store: Store, ipui: Option<seq<Hash.byte>>, emc: Option<seq<Hash.byte>>,
                                  sha1: seq<Hash.byte> -> Hash.Digest, uuidString: Hash.Uuid -> string)
    returns (result: int)
    requires ipui.Some? ==> |ipui.value| == 5
    requires emc.Some? ==> |emc.value| == 2
    modifies store
    ensures var piid := if ipui.Some? && emc.Some? then uuidString(Hash.StampAsWritten(sha1(Hash.DeviceInput(ipui, emc)))) else "";
            (store.values, result) == Run(old(store.values), store.outcome, FixedDeviceWrites(piid))
  {
    ghost var o := store.outcome;
    var piidBuffer := DeviceProtocolIndependentId(ipui, emc, sha1, uuidString);
    var piid := piidBuffer.GetOr("");
    ghost var goal := Run(store.values, o, FixedDeviceWrites(piid));
    ghost var v := store.values;
    var deviceName := "sample";
    result := store.SetPropertyValue("n", deviceName);
    WriteStep(v, o, Write("n", "sample"), [Write("icv", SpecVersion)] + ([Write("piid", piid)] + [Write("dmv", "1")]), result, store.values);
    if result != Resources.StackOk {
      return;
    }
    v := store.values;
    result := store.SetPropertyValue("icv", SpecVersion);
    WriteStep(v, o, Write("icv", SpecVersion), [Write("piid", piid)] + [Write("dmv", "1")], result, store.values);
    if result != Resources.StackOk {
      return;
    }
    v := store.values;
    result := store.SetPropertyValue("piid", piid);
    WriteStep(v, o, Write("piid", piid), [Write("dmv", "1")], result, store.values);
    if result != Resources.StackOk {
      return;
    }
    v := store.values;
    result := store.SetPropertyValue("dmv", "1");
    WriteStep(v, o, Write("dmv", "1"), [], result, store.values);
    assert [Write("dmv", "1")] == [Write("dmv", "1")] + [];
  }
}
