// Name-based UUIDs of src/hash.cpp: SHA-1 over a fixed namespace followed
// by the name, then the version and variant bits stamped into the digest
// (RFC 4122 section 4.3). SHA-1 itself is a parameter.
module Hash {
  import opened Wrappers
  import Text

  type byte = bv8
  type Digest = s: seq<byte> | |s| == 20 witness seq(20, i => 0)
  type Uuid = s: seq<byte> | |s| == 16 witness seq(16, i => 0)

  /** eb8242fd-5d95-4692-80f6-79322061b8ff */
  const Namespace: seq<byte> := [
    0xeb, 0x82, 0x42, 0xfd, 0x5d, 0x95, 0x46, 0x92,
    0x80, 0xf6, 0x79, 0x32, 0x20, 0x61, 0xb8, 0xff
  ]

  /** The bytes a `const char*` hands to SHA1_Update: each char as one byte, up to the NUL. */
  function CharBytes(s: string): (r: seq<byte>)
    ensures |r| == |s|
  {
    seq(|s|, i requires 0 <= i < |s| => (s[i] as int % 256) as bv8)
  }

  /** Everything Hash(id, uid) feeds to SHA-1; a NULL uid adds nothing. */
  function UidInput(uid: Option<string>): (r: seq<byte>)
    ensures |r| >= 16 && r[..16] == Namespace
    ensures uid.None? ==> r == Namespace
    ensures uid.Some? ==> r[16..] == CharBytes(Text.CPrefix(uid.value))
  {
    match uid
    case None => Namespace
    case Some(s) => Namespace + CharBytes(Text.CPrefix(s))
  }

  /**
   * Everything Hash(id, ipui, emc) feeds to SHA-1: exactly 5 IPUI bytes and
   * exactly 2 EMC bytes, each part skipped for a NULL pointer.
   */
  function DeviceInput(ipui: Option<seq<byte>>, emc: Option<seq<byte>>): (r: seq<byte>)
    requires ipui.Some? ==> |ipui.value| == 5
    requires emc.Some? ==> |emc.value| == 2
    ensures |r| == 16 + (if ipui.Some? then 5 else 0) + (if emc.Some? then 2 else 0)
    ensures r[..16] == Namespace
    ensures ipui.Some? ==> r[16..21] == ipui.value
    ensures emc.Some? ==> r[|r| - 2..] == emc.value
  {
    Namespace
      + (if ipui.Some? then ipui.value else [])
      + (if emc.Some? then emc.value else [])
  }

  /**
   * Lines 85-87 and 173-175 as they are written: the version nibble goes
   * into byte 7 and the variant bits into byte 8; the first 16 bytes are kept.
   */
  function StampAsWritten(d: Digest): (id: Uuid)
  {
    d[..7] + [(d[7] & 0x0f) | 0x50] + [(d[8] & 0x3f) | 0x80] + d[9..16]
  }

  /** RFC 4122 section 4.1.3: the version is the high nibble of octet 6. */
  function Stamp(d: Digest): (id: Uuid)
  {
    d[..6] + [(d[6] & 0x0f) | 0x50] + [d[7]] + [(d[8] & 0x3f) | 0x80] + d[9..16]
  }

  /** What lines 85-86 guarantee: byte 7 has high nibble 5, byte 8 top bits 10, the rest is the digest. */
  lemma StampAsWrittenBits(d: Digest)
    ensures var id := StampAsWritten(d);
      id[7] >> 4 == 5 && id[7] & 0x0f == d[7] & 0x0f
      && id[8] >> 6 == 2 && id[8] & 0x3f == d[8] & 0x3f
      && forall i :: 0 <= i < 16 && i != 7 && i != 8 ==> id[i] == d[i]
  {
    var id := StampAsWritten(d);
    assert id[7] == (d[7] & 0x0f) | 0x50;
    assert id[8] == (d[8] & 0x3f) | 0x80;
  }

  /** The source's id need not carry version 5 where RFC 4122 reads it. */
  lemma StampAsWrittenMissesVersion()
    ensures var d: Digest := seq(20, i => 0);
      StampAsWritten(d)[6] >> 4 == 0 && Stamp(d)[6] >> 4 == 5
  {
    var d: Digest := seq(20, i => 0);
    assert StampAsWritten(d)[6] == d[6] == 0;
    assert Stamp(d)[6] == (d[6] & 0x0f) | 0x50;
  }

  /** The corrected stamp: a version-5 (SHA-1 name-based), RFC 4122 variant UUID. */
  lemma StampBits(d: Digest)
    ensures var id := Stamp(d);
      id[6] >> 4 == 5 && id[6] & 0x0f == d[6] & 0x0f
      && id[8] >> 6 == 2 && id[8] & 0x3f == d[8] & 0x3f
      && forall i :: 0 <= i < 16 && i != 6 && i != 8 ==> id[i] == d[i]
  {
    var id := Stamp(d);
    assert id[6] == (d[6] & 0x0f) | 0x50;
    assert id[8] == (d[8] & 0x3f) | 0x80;
  }

  /** Stamps the digest in place, as lines 85-87 and 173-175 do, and keeps its first 16 bytes as the id. */
  method StampDigest(digest: array<byte>) returns (id: Uuid)
    requires digest.Length == 20
    modifies digest
    ensures id == StampAsWritten(old(digest[..]))
  {
    ghost var d: Digest := digest[..];
    digest[7] := (digest[7] & 0x0f) | 0x50;
    digest[8] := (digest[8] & 0x3f) | 0x80;
    id := digest[..16];
    assert id == StampAsWritten(d);
  }

  /** Hash(id, uid): the stamped digest of the namespace and the uid. */
  method HashUid(sha1: seq<byte> -> Digest, uid: Option<string>) returns (id: Uuid)
    ensures id == StampAsWritten(sha1(UidInput(uid)))
  {
    var d := sha1(UidInput(uid));
    var digest := new byte[20](i requires 0 <= i < 20 => d[i]);
    assert digest[..] == d;
    id := StampDigest(digest);
  }

  /** Hash(id, ipui, emc): the stamped digest of the namespace, the IPUI and the EMC. */
  method HashDevice(sha1: seq<byte> -> Digest, ipui: Option<seq<byte>>, emc: Option<seq<byte>>)
    returns (id: Uuid)
    requires ipui.Some? ==> |ipui.value| == 5
    requires emc.Some? ==> |emc.value| == 2
    ensures id == StampAsWritten(sha1(DeviceInput(ipui, emc)))
  {
    var d := sha1(DeviceInput(ipui, emc));
    var digest := new byte[20](i requires 0 <= i < 20 => d[i]);
    assert digest[..] == d;
    id := StampDigest(digest);
  }
}
