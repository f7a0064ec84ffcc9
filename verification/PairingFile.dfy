/** The pairing state file: its atomic replacement and its contents. */
module PairingFile {
  import opened Common
  import opened Devices
  import opened Json

  // ---- the disk ----

  datatype File = File(text: string, synced: bool)

  /** Directory entries name files; renaming moves an entry, not a file. */
  datatype Image = Image(entries: map<string, nat>, files: seq<File>)

  ghost predicate Sound(d: Image) {
    forall p :: p in d.entries ==> d.entries[p] < |d.files|
  }

  function Read(d: Image, path: string): Option<string> {
    if path in d.entries && d.entries[path] < |d.files| then Some(d.files[d.entries[path]].text) else None
  }

  datatype Op =
    | Create(path: string)
    | Write(path: string, text: string)
    | Sync(path: string)
    | Replace(from: string, to: string)
    | Unlink(path: string)

  function Perform(d: Image, op: Op): Image {
    match op
    case Create(p) => Image(d.entries[p := |d.files|], d.files + [File("", false)])
    case Write(p, text) => OnFile(d, p, File(text, false))
    case Sync(p) => if p in d.entries && d.entries[p] < |d.files|
      then OnFile(d, p, File(d.files[d.entries[p]].text, true)) else d
    case Replace(from, to) =>
      if from in d.entries && from != to then Image(d.entries[to := d.entries[from]] - {from}, d.files) else d
    case Unlink(p) => Image(d.entries - {p}, d.files)
  }

  function OnFile(d: Image, path: string, f: File): Image {
    if path in d.entries && d.entries[path] < |d.files| then Image(d.entries, d.files[d.entries[path] := f]) else d
  }

  function PerformAll(d: Image, ops: seq<Op>): Image {
    if ops == [] then d else Perform(PerformAll(d, ops[..|ops| - 1]), ops[|ops| - 1])
  }

  /** The steps of `_save_pairing_state`. */
  function SaveOps(path: string, temporary: string, text: string): seq<Op> {
    [Create(temporary), Write(temporary, text), Sync(temporary), Replace(temporary, path)]
  }

  /** A crash after k steps: directory changes may not have reached the disk,
      so the entries are those after some j <= k steps, and a file that was
      not synced keeps only some beginning of its text. */
  ghost predicate CrashLeaves(d: Image, ops: seq<Op>, j: nat, k: nat, after: Image) {
    && j <= k <= |ops|
    && after.entries == PerformAll(d, ops[..j]).entries
    && |after.files| == |PerformAll(d, ops[..k]).files|
    && forall i :: 0 <= i < |after.files| ==> Survives(PerformAll(d, ops[..k]).files[i], after.files[i])
  }

  predicate Survives(f: File, after: File) {
    && after.text <= f.text
    && (f.synced ==> after.text == f.text)
  }

  lemma PerformOne(d: Image, ops: seq<Op>, k: nat)
    requires k < |ops|
    ensures PerformAll(d, ops[..k + 1]) == Perform(PerformAll(d, ops[..k]), ops[k]) && PerformAll(d, ops[..0]) == d
  {
    assert ops[..k + 1][..k] == ops[..k];
  }

  /** The four steps one by one. */
  lemma SaveSteps(d: Image, path: string, temporary: string, text: string)
    requires Sound(d) && temporary !in d.entries && temporary != path
    ensures var n := |d.files|;
            var d1 := Image(d.entries[temporary := n], d.files + [File("", false)]);
            var d2 := Image(d1.entries, d.files + [File(text, false)]);
            var d3 := Image(d1.entries, d.files + [File(text, true)]);
            && Perform(d, Create(temporary)) == d1
            && Perform(d1, Write(temporary, text)) == d2
            && Perform(d2, Sync(temporary)) == d3
            && Perform(d3, Replace(temporary, path)) == Image(d.entries[path := n], d3.files)
  {
    var n := |d.files|;
    assert (d.files + [File("", false)])[n := File(text, false)] == d.files + [File(text, false)];
    assert (d.files + [File(text, false)])[n := File(text, true)] == d.files + [File(text, true)];
    assert d.entries[temporary := n][path := n] - {temporary} == d.entries[path := n];
  }

  lemma PerformPrefixes(d: Image, path: string, temporary: string, text: string)
    requires Sound(d) && temporary !in d.entries && temporary != path
    ensures var ops := SaveOps(path, temporary, text);
            var n := |d.files|;
            && PerformAll(d, ops[..0]) == d
            && PerformAll(d, ops[..1]) == Image(d.entries[temporary := n], d.files + [File("", false)])
            && PerformAll(d, ops[..2]) == Image(d.entries[temporary := n], d.files + [File(text, false)])
            && PerformAll(d, ops[..3]) == Image(d.entries[temporary := n], d.files + [File(text, true)])
            && PerformAll(d, ops[..4]) == Image(d.entries[path := n], d.files + [File(text, true)])
  {
    hide Perform, PerformAll, Sound;
    var ops := SaveOps(path, temporary, text);
    SaveSteps(d, path, temporary, text);
    PerformOne(d, ops, 0);
    PerformOne(d, ops, 1);
    PerformOne(d, ops, 2);
    PerformOne(d, ops, 3);
  }

  predicate SyncedAt(d: Image, path: string) {
    path in d.entries && d.entries[path] < |d.files| ==> d.files[d.entries[path]].synced
  }

  /** Crash atomicity: whenever the crash comes, and whatever part of the
      unsynced data is lost, the state path holds the whole old file - or is
      absent, if it was - or the whole new one, provided the old file was synced;
      every other path keeps its file, whole if it was synced. */
  lemma CrashAtomic(d: Image, path: string, temporary: string, text: string, j: nat, k: nat, after: Image)
    requires Sound(d) && temporary !in d.entries && temporary != path
    requires CrashLeaves(d, SaveOps(path, temporary, text), j, k, after)
    ensures SyncedAt(d, path) ==> Read(after, path) == Read(d, path) || Read(after, path) == Some(text)
    ensures forall p :: p != path && p != temporary ==>
              && (p in after.entries <==> p in d.entries)
              && (SyncedAt(d, p) ==> Read(after, p) == Read(d, p))
  {
    hide Perform, PerformAll;
    PerformPrefixes(d, path, temporary, text);
    var ops := SaveOps(path, temporary, text);
    var n := |d.files|;
    assert forall i :: 0 <= i < n && k <= 4 ==> PerformAll(d, ops[..k]).files[i] == d.files[i];
    if j == 4 {
      assert k == 4;
      assert Survives(PerformAll(d, ops[..4]).files[n], after.files[n]);
    }
    forall p | p != temporary && (p != path || j < 4)
      ensures (p in after.entries <==> p in d.entries) && (SyncedAt(d, p) ==> Read(after, p) == Read(d, p))
    {
      if p in d.entries { assert Survives(d.files[d.entries[p]], after.files[d.entries[p]]); }
    }
  }

  /** The sync before the replacement is what makes this so: without it a
      crash can leave an empty file at the state path. */
  lemma SyncIsNeeded(path: string, temporary: string, text: string)
    requires temporary != path && text != ""
    ensures var ops := [Create(temporary), Write(temporary, text), Replace(temporary, path)];
            var after := Image(map[path := 0], [File("", false)]);
            CrashLeaves(Image(map[], []), ops, 3, 3, after) && Read(after, path) == Some("")
  {
    var ops := [Create(temporary), Write(temporary, text), Replace(temporary, path)];
    var d := Image(map[], []);
    assert ops[..3][..2] == ops[..2] && ops[..2][..1] == ops[..1] && ops[..1][..0] == ops[..0] == [];
    assert PerformAll(d, ops[..1]) == Image(map[temporary := 0], [File("", false)]);
    assert PerformAll(d, ops[..2]) == Image(map[temporary := 0], [File(text, false)]);
    assert map[temporary := 0][path := 0] - {temporary} == map[path := 0];
    assert PerformAll(d, ops[..3]) == Image(map[path := 0], [File(text, false)]);
  }

  /** A directory that the process shares with nobody. */
  class Disk {
    var image: Image

    constructor (image: Image)
      ensures this.image == image
    {
      this.image := image;
    }

    /** `_save_pairing_state` with an operating-system error at step `failing`
        (0 create, 1 write, 2 sync, 3 replace); larger numbers mean none. */
    method Save(path: string, temporary: string, text: string, failing: nat) returns (saved: bool)
      requires Sound(image) && temporary !in image.entries && temporary != path
      modifies this
      ensures Sound(image) && saved == (failing > 3)
      ensures saved ==>
                && Read(image, path) == Some(text)
                && image == PerformAll(old(image), SaveOps(path, temporary, text))
      ensures !saved ==> image.entries == old(image.entries) && forall p :: Read(image, p) == Read(old(image), p)
      ensures forall p :: p != path ==> Read(image, p) == Read(old(image), p)
    {
      ghost var start := image;
      SaveSteps(start, path, temporary, text);
      PerformPrefixes(start, path, temporary, text);
      assert SaveOps(path, temporary, text)[..4] == SaveOps(path, temporary, text);
      hide PerformAll;
      if failing == 0 {
        return false;
      }
      image := Perform(image, Create(temporary));
      if failing > 1 {
        image := Perform(image, Write(temporary, text));
        if failing > 2 {
          image := Perform(image, Sync(temporary));
          if failing > 3 {
            image := Perform(image, Replace(temporary, path));
            return true;
          }
        }
      }
      image := Perform(image, Unlink(temporary));
      assert image.entries == start.entries;
      return false;
    }
  }

  // ---- the contents ----

  /** `json.dump` and `json.load` as text functions. */
  datatype TextCodec = TextCodec(dumps: Json -> string, loads: string -> Option<Json>)

  datatype Binding = Binding(candidateId: string, deviceId: string, ip: string)

  /** Text written for a binding reads back as what was written. */
  ghost predicate TextLawful(t: TextCodec) {
    forall b :: t.loads(t.dumps(BindingJson(b))) == Some(BindingJson(b))
  }

  function BindingJson(b: Binding): Json {
    Obj([("version", Int(1)), ("candidate_id", Str(b.candidateId)), ("device_id", Str(b.deviceId)), ("ip", Str(b.ip))])
  }

  /** Python's `x == 1`, which `true` and `1.0` satisfy as well. */
  predicate IsOne(v: Json) { v == Int(1) || v == Bool(true) || v == Float(1.0) }

  /** The binding a JSON value states, if it has the required form. */
  function BindingOf(v: Json): Option<Binding> {
    if !v.Obj? || !IsOne(GetOrNull(v.members, "version")) then None else
      var candidate, device := GetOrNull(v.members, "candidate_id"), GetOrNull(v.members, "device_id");
      var ip := GetOrNull(v.members, "ip");
      if candidate.Str? && device.Str? && ip.Str? then Some(Binding(candidate.s, device.s, ip.s)) else None
  }

  /** `_load_pairing_state`: nothing without a file, an error for a bad one. */
  function Load(l: Lookup, t: TextCodec, p: PairingConfig, file: Option<string>): Result<Option<(DeviceConfig, string)>>
    requires LookupLawful(l)
  {
    if file.None? then Ok(None) else
      var v := t.loads(file.value);
      var b := if v.Some? then BindingOf(v.value) else None;
      if b.None? || b.value.candidateId != CandidateId(l, b.value.deviceId) then Err(ConfigurationError) else
        var device :- MakeDevice(l, p, b.value.ip, b.value.deviceId);
        Ok(Some((device, b.value.candidateId)))
  }

  lemma BindingJsonInverse(b: Binding)
    ensures BindingOf(BindingJson(b)) == Some(b)
  {
    var m := BindingJson(b).members;
    assert Get(m[1..][1..][1..], "ip") == Some(Str(b.ip));
    assert Get(m[1..][1..], "ip") == Some(Str(b.ip)) && Get(m[1..][1..], "device_id") == Some(Str(b.deviceId));
    assert Get(m[1..], "ip") == Some(Str(b.ip)) && Get(m[1..], "device_id") == Some(Str(b.deviceId));
    assert Get(m[1..], "candidate_id") == Some(Str(b.candidateId));
  }

  /** Saving a device of this profile and loading it under the same profile
      returns the same device and candidate id. */
  lemma SaveLoad(l: Lookup, t: TextCodec, p: PairingConfig, device: DeviceConfig)
    requires LookupLawful(l) && TextLawful(t)
    requires MakeDevice(l, p, device.ip, device.deviceId) == Ok(device)
    ensures var id := CandidateId(l, device.deviceId);
            Load(l, t, p, Some(t.dumps(BindingJson(Binding(id, device.deviceId, device.ip))))) == Ok(Some((device, id)))
  {
    BindingJsonInverse(Binding(CandidateId(l, device.deviceId), device.deviceId, device.ip));
  }

  /** The JSON value of an acceptable file for this device: an object of version
      1 that names the device, its address - a private one - and the candidate id
      derived from the device id. */
  predicate LoadedFrom(l: Lookup, v: Json, ip: string, deviceId: string)
    requires LookupLawful(l)
  {
    && v.Obj? && IsOne(GetOrNull(v.members, "version"))
    && GetOrNull(v.members, "ip") == Str(ip) && GetOrNull(v.members, "device_id") == Str(deviceId)
    && GetOrNull(v.members, "candidate_id") == Str(CandidateId(l, deviceId))
    && l.privateIp(ip) && 1 <= |deviceId| <= 64
  }

  /** A file is accepted exactly if it holds such a value; it yields the device
      that the file names, with everything else from the profile, and its
      candidate id.  Any other file is a configuration error. */
  lemma LoadAccepts(l: Lookup, t: TextCodec, p: PairingConfig, text: string)
    requires LookupLawful(l)
    ensures var r := Load(l, t, p, Some(text));
            && (r.Ok? <==> t.loads(text).Some? && exists ip, id :: LoadedFrom(l, t.loads(text).value, ip, id))
            && (r.Err? ==> r.error == ConfigurationError)
            && (r.Ok? ==>
                  && r.value.Some?
                  && var (device, id) := r.value.value;
                     && LoadedFrom(l, t.loads(text).value, device.ip, device.deviceId)
                     && Configures(p, device.ip, device.deviceId, device)
                     && id == CandidateId(l, device.deviceId) && IsLightId(id))
  {
    var v := t.loads(text);
    if v.Some? && BindingOf(v.value).Some? {
      var b := BindingOf(v.value).value;
      CandidateIsLight(l, b.deviceId);
      MakeDeviceExact(l, p, b.ip, b.deviceId);
      assert Load(l, t, p, Some(text)).Ok? ==> LoadedFrom(l, v.value, b.ip, b.deviceId);
    }
    hide MakeDevice, CandidateId, GetOrNull, IsLightId;
  }
}
