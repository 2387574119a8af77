// The resource-type filter of src/interfaces.cpp: which OCF resource types
// the bridge translates into HAN-FUN.
module Interfaces {

  /**
   * Types never translated. The five constants in the second row are
   * IoTivity's names for the collection, introspection, resource
   * directory, RD publish and /oic/res resource types.
   */
  const DoNotTranslate: seq<string> := [
    "oic.d.bridge",
    "oic.wk.col", "oic.wk.introspection", "oic.wk.rd", "oic.wk.rdpub", "oic.wk.res",
    "oic.r.hanfunobject", "oic.r.acl", "oic.r.acl2", "oic.r.amacl", "oic.r.cred", "oic.r.crl",
    "oic.r.csr", "oic.r.doxm", "oic.r.pstat", "oic.r.roles", "oic.r.securemode"
  ]

  /** Device, device configuration, maintenance, platform and platform configuration. */
  const DoDeepTranslation: seq<string> := [
    "oic.wk.d", "oic.wk.con", "oic.wk.mnt", "oic.wk.p", "oic.wk.con.p"
  ]

  /** Whether an entry at or after i equals name (strcmp == 0). */
  function Scan(table: seq<string>, name: string, i: nat): bool
    requires i <= |table|
    decreases |table| - i
  {
    if i == |table| then false
    else if table[i] == name then true
    else Scan(table, name, i + 1)
  }

  /** The scan finds exactly the names in the rest of the table. */
  lemma {:induction false} ScanFinds(table: seq<string>, name: string, i: nat)
    requires i <= |table|
    ensures Scan(table, name, i) <==> name in table[i..]
    decreases |table| - i
  {
    assert table[i..] == if i == |table| then [] else [table[i]] + table[i + 1..];
    if i < |table| {
      ScanFinds(table, name, i + 1);
    }
  }

  /** Both table scans run in order; a deep-translation hit and a miss both accept. */
  function TranslateResourceType(name: string): bool {
    if Scan(DoNotTranslate, name, 0) then false
    else if Scan(DoDeepTranslation, name, 0) then true
    else true
  }

  /** A resource type is translated exactly when it is not in the do-not-translate table. */
  lemma TranslatedUnlessListed(name: string)
    ensures TranslateResourceType(name) <==> name !in DoNotTranslate
  {
    assert DoNotTranslate[0..] == DoNotTranslate;
    ScanFinds(DoNotTranslate, name, 0);
  }

  /** No deep-translation name is in the do-not-translate table (they differ in length or last character). */
  lemma DeepNamesUnlisted(j: nat)
    requires j < |DoDeepTranslation|
    ensures DoDeepTranslation[j] !in DoNotTranslate
  {
    var lengths := seq(|DoNotTranslate|, i requires 0 <= i < |DoNotTranslate| => |DoNotTranslate[i]|);
    assert lengths == [12, 10, 20, 9, 12, 10, 18, 9, 10, 11, 10, 9, 9, 10, 11, 11, 16];
    var lasts := seq(|DoNotTranslate|, i requires 0 <= i < |DoNotTranslate| => DoNotTranslate[i][|DoNotTranslate[i]| - 1]);
    assert lasts == ['e', 'l', 'n', 'd', 'b', 's', 't', 'l', '2', 'l', 'd', 'l', 'r', 'm', 't', 's', 'e'];
    forall i | 0 <= i < |DoNotTranslate| ensures DoNotTranslate[i] != DoDeepTranslation[j] {
      assert |DoNotTranslate[i]| == lengths[i];
      assert DoNotTranslate[i][|DoNotTranslate[i]| - 1] == lasts[i];
    }
  }

  /** The deep-translation table never changes the verdict: all its names pass. */
  lemma DeepTranslationAccepted(name: string)
    requires name in DoDeepTranslation
    ensures TranslateResourceType(name)
  {
    var j :| 0 <= j < |DoDeepTranslation| && DoDeepTranslation[j] == name;
    DeepNamesUnlisted(j);
    TranslatedUnlessListed(name);
  }
}
