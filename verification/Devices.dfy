/** Device configurations, pairing profiles and the identifiers of lights. */
module Devices {
  import opened Common
  import opened Dps
  import opened Mapping

  datatype DeviceConfig = DeviceConfig(
    ip: string, deviceId: string, localKey: Bytes, version: Version, dps: Option<DpMapping>, publicName: string,
    retries: nat)

  /** Local credentials and verified mapping used after discovery. */
  datatype PairingConfig = PairingConfig(localKey: Bytes, version: Version, dps: DpMapping, publicName: string,
                                         retries: nat) {
    predicate Valid() { |localKey| == 16 && dps.Valid() && 1 <= |publicName| <= 128 && retries <= 5 }
  }

  /** Facts about text that the driver looks up: whether an address is a
      private or link-local one, and the SHA-256 digest in hexadecimal. */
  datatype Lookup = Lookup(privateIp: string -> bool, digest: string -> string)

  ghost predicate LookupLawful(l: Lookup) {
    forall s :: |l.digest(s)| == 64 && forall k :: 0 <= k < 64 ==> IsHexDigit(l.digest(s)[k])
  }

  predicate IsHexDigit(c: char) { '0' <= c <= '9' || 'a' <= c <= 'f' }

  /** `TuyaDeviceConfig.__post_init__` for a profile that is valid itself. */
  function MakeDevice(l: Lookup, p: PairingConfig, ip: string, deviceId: string): Result<DeviceConfig> {
    if !l.privateIp(ip) || deviceId == "" || |deviceId| > 64 then Err(ConfigurationError)
    else Ok(DeviceConfig(ip, deviceId, p.localKey, p.version, Some(p.dps), p.publicName, p.retries))
  }

  /** The device found at this address under this id, the rest from the profile. */
  predicate Configures(p: PairingConfig, ip: string, deviceId: string, d: DeviceConfig) {
    && d.ip == ip && d.deviceId == deviceId
    && d.localKey == p.localKey && d.version == p.version && d.dps == Some(p.dps)
    && d.publicName == p.publicName && d.retries == p.retries
  }

  /** A device can be configured exactly at a private address and under an id of
      1 to 64 characters; key, version, mapping, name and retries come from the
      profile. */
  lemma MakeDeviceExact(l: Lookup, p: PairingConfig, ip: string, deviceId: string)
    ensures var r := MakeDevice(l, p, ip, deviceId);
            && (r.Ok? <==> l.privateIp(ip) && 1 <= |deviceId| <= 64)
            && (r.Ok? ==> Configures(p, ip, deviceId, r.value))
            && (r.Err? ==> r.error == ConfigurationError)
  {}

  /** The opaque identifier of a device: `light.` and half of its digest. */
  function CandidateId(l: Lookup, deviceId: string): string
    requires LookupLawful(l)
  {
    "light." + l.digest(deviceId)[..32]
  }

  predicate IsIdChar(c: char) {
    'a' <= c <= 'z' || '0' <= c <= '9' || c == '.' || c == '_' || c == '-'
  }

  /** What `DeviceDescriptor` admits as an id. */
  predicate IsLightId(s: string) {
    && 2 <= |s| <= 64 && 'a' <= s[0] <= 'z'
    && forall k :: 0 <= k < |s| ==> IsIdChar(s[k])
  }

  /** Candidate ids are always light ids. */
  lemma CandidateIsLight(l: Lookup, deviceId: string)
    requires LookupLawful(l)
    ensures IsLightId(CandidateId(l, deviceId))
  {
    var id := CandidateId(l, deviceId);
    forall k | 0 <= k < |id| ensures IsIdChar(id[k]) {
      if k >= 6 {
        assert id[k] == l.digest(deviceId)[k - 6];
        assert IsHexDigit(l.digest(deviceId)[k - 6]);
      }
    }
  }

  /** Two devices have the same candidate id exactly if the first halves of their
      digests agree. */
  lemma CandidateSeparates(l: Lookup, a: string, b: string)
    requires LookupLawful(l)
    ensures CandidateId(l, a) == CandidateId(l, b) <==> l.digest(a)[..32] == l.digest(b)[..32]
    ensures |CandidateId(l, a)| == 38 && "light." <= CandidateId(l, a)
  {
    assert |"light."| == 6;
    assert CandidateId(l, a)[6..] == l.digest(a)[..32] && CandidateId(l, b)[6..] == l.digest(b)[..32];
  }

  predicate IsDiscoveryChar(c: char) {
    'A' <= c <= 'Z' || 'a' <= c <= 'z' || '0' <= c <= '9' || c == '_' || c == '-'
  }

  /** What a discovery datagram may call a device. */
  predicate IsDiscoveryId(s: string) { 8 <= |s| <= 64 && forall k :: 0 <= k < |s| ==> IsDiscoveryChar(s[k]) }

  /** A discovered device id is a light id unless it has a capital letter or
      does not begin with a letter. */
  lemma DiscoveredLightId(s: string)
    requires IsDiscoveryId(s)
    ensures IsLightId(s) <==> 'a' <= s[0] <= 'z' && forall k :: 0 <= k < |s| ==> !('A' <= s[k] <= 'Z')
  {
    if 'a' <= s[0] <= 'z' && forall k :: 0 <= k < |s| ==> !('A' <= s[k] <= 'Z') {
      forall k | 0 <= k < |s| ensures IsIdChar(s[k]) { assert IsDiscoveryChar(s[k]); }
    }
    if IsLightId(s) {
      forall k | 0 <= k < |s| ensures !('A' <= s[k] <= 'Z') { assert IsIdChar(s[k]); }
    }
  }
}
