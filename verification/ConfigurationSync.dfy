/** Keeping the configuration that a device runs and the one that the gateway stores at the same version. */
module ConfigurationSync {
  import opened Common

  /** A configuration: a document, which may name its version, or a text that is no document. */
  datatype Configuration = Document(version: Option<u64>, rest: string) | Garbled(text: string)

  /** The version in a configuration, or zero. */
  function VersionIn(c: Configuration): u64 {
    if c.Document? && c.version.Some? then c.version.value else 0
  }

  function Stamped(c: Configuration, version: u64): Configuration {
    if c.Document? then c.(version := Some(version)) else c
  }

  /** What is stored for a device. Zero is no version. */
  datatype Device = Device(isSwitch: bool, configuration: Configuration, uuid: u64,
                           pendingConfiguration: Option<Configuration>, pendingCommand: string, pendingUuid: u64)

  datatype Configure = Configure(uuid: u64, configuration: Configuration)

  /** What the gateway knows of one device: the stored record, the version in the cache, the version
      its connection waits for, and the configurations it was sent. */
  datatype State = State(device: Option<Device>, cached: u64, pending: u64, sent: seq<Configure>)

  /** How a look for an upgrade ends; it may fail on a stored text that is no document. */
  datatype Outcome = Same | Changed | Failed

  const SHORTEST: nat := 20

  /** The version of the stored configuration, also where the record has none. */
  function Effective(d: Device): u64 {
    if d.uuid == 0 then VersionIn(d.configuration) else d.uuid
  }

  function Plus2(version: u64): u64 {
    (version + 2) % TWO_64
  }

  /** The version that a device which reports another one is to get. */
  function Newer(d: Device, version: u64): u64 {
    if version > Effective(d) then Plus2(version) else Effective(d)
  }

  /** The record once a configuration waits for the device to take it, under a new version. */
  function Awaiting(d: Device, c: Configuration, version: u64): Device {
    d.(pendingConfiguration := Some(Stamped(c, version)), pendingUuid := version)
  }

  /** The record once what was pending is confirmed. */
  function Confirmed(d: Device): Device {
    var installed := if d.pendingConfiguration.Some?
                     then d.(configuration := d.pendingConfiguration.value, pendingConfiguration := None) else d;
    var renamed := if d.pendingUuid != 0 then installed.(uuid := d.pendingUuid, pendingUuid := 0) else installed;
    renamed.(uuid := Effective(renamed))
  }

  /** The record once what was pending is given up. */
  function Cleared(d: Device): Device {
    d.(pendingConfiguration := None, pendingUuid := 0)
  }

  function AfterComplete(s: State): State {
    match s.device
    case None => s
    case Some(d) => s.(device := Some(Confirmed(d)), cached := Confirmed(d).uuid)
  }

  function AfterRollback(s: State): State {
    match s.device
    case None => s
    case Some(d) => s.(device := Some(Cleared(d)), cached := d.uuid)
  }

  predicate Exempt(d: Device, sizeOf: Configuration -> nat) {
    d.isSwitch && sizeOf(d.configuration) < SHORTEST
  }

  /** The record once a newer configuration is on its way. */
  function Upgrading(d: Device, version: u64): Device {
    var newer := Newer(d, version);
    d.(uuid := newer, configuration := Stamped(d.configuration, newer), pendingUuid := newer)
  }

  function AfterReport(s: State, version: u64, sizeOf: Configuration -> nat): (r: (State, Outcome, Option<u64>)) {
    if version == 0 then (s, Same, None)
    else if s.cached != 0 && (s.cached == version || s.cached == s.pending) then (s.(pending := 0), Same, Some(version))
    else if s.device == None then (s, Same, None)
    else if s.pending != 0 && s.pending == version then (AfterComplete(s).(pending := 0), Changed, Some(version))
    else
      var d := s.device.value;
      if Exempt(d, sizeOf) then (s, Same, None)
      else if Effective(d) == version then
        (s.(device := Some(d.(uuid := version, pendingUuid := 0, pendingConfiguration := None, pendingCommand := "")),
            cached := version, pending := 0), Same, Some(version))
      else
        var e := Upgrading(d, version);
        var waiting := s.(device := Some(e), pending := e.uuid);
        if e.configuration.Garbled? then (waiting, Failed, Some(e.uuid))
        else (waiting.(sent := s.sent + [Configure(e.uuid, e.configuration)]), Changed, Some(e.uuid))
  }

  class ConfigurationCache {
    var cache: map<u64, u64>

    constructor ()
      ensures cache == map[]
    {
      cache := map[];
    }

    method GetCurrentConfig(serial: u64) returns (version: u64)
      ensures version == if serial in cache then cache[serial] else 0
    {
      version := 0;
      if serial in cache {
        version := cache[serial];
      }
    }

    method SetCurrentConfig(serial: u64, version: u64)
      modifies this
      ensures cache == old(cache)[serial := version] && cache - {serial} == old(cache) - {serial}
    {
      cache := cache[serial := version];
    }
  }

  /** The device table of the store. */
  class Storage {
    var devices: map<u64, Device>
    const cache: ConfigurationCache

    constructor (cache: ConfigurationCache)
      ensures this.cache == cache && devices == map[]
    {
      this.cache := cache;
      devices := map[];
    }

    ghost function Record(serial: u64): Option<Device>
      reads this
    {
      if serial in devices then Some(devices[serial]) else None
    }

    method GetDevice(serial: u64) returns (d: Option<Device>)
      ensures d == Record(serial)
    {
      d := None;
      if serial in devices {
        d := Some(devices[serial]);
      }
    }

    method UpdateDevice(serial: u64, d: Device)
      modifies this`devices
      ensures devices == if serial in old(devices) then old(devices)[serial := d] else old(devices)
      ensures devices - {serial} == old(devices) - {serial}
    {
      if serial in devices {
        devices := devices[serial := d];
      }
    }

    /** A configuration that was asked for, which has to name some version. If none is asked for, it gets a
        new one, made from the time. */
    method SetPendingDeviceConfiguration(serial: u64, c: Configuration, version: u64, made: u64)
      returns (done: bool, given: u64)
      modifies this`devices
      ensures done <==> c.Document? && c.version.Some? && serial in old(devices)
      ensures done ==> given == if version == 0 then made else version
      ensures devices == if done then old(devices)[serial := Awaiting(old(devices)[serial], c, given)] else old(devices)
    {
      given := version;
      if c.Garbled? || c.version == None {
        return false, given;
      }
      var record := GetDevice(serial);
      if record == None {
        return false, given;
      }
      var d := record.value;
      if given == 0 {
        given := made;
      }
      d := d.(pendingUuid := given);
      d := d.(pendingConfiguration := Some(Stamped(c, given)));
      UpdateDevice(serial, d);
      return true, given;
    }

    method CompleteDeviceConfigurationChange(serial: u64) returns (found: bool)
      modifies this`devices, cache
      ensures found == (serial in old(devices))
      ensures !found ==> devices == old(devices) && cache.cache == old(cache.cache)
      ensures found ==>
        var d := Confirmed(old(devices)[serial]);
        devices == old(devices)[serial := d] && cache.cache == old(cache.cache)[serial := d.uuid]
      ensures devices - {serial} == old(devices) - {serial} && cache.cache - {serial} == old(cache.cache) - {serial}
    {
      var record := GetDevice(serial);
      if record == None {
        return false;
      }
      var d := record.value;
      if d.pendingConfiguration.Some? {
        d := d.(configuration := d.pendingConfiguration.value);
        d := d.(pendingConfiguration := None);
      }
      if d.pendingUuid != 0 {
        d := d.(uuid := d.pendingUuid);
        d := d.(pendingUuid := 0);
      }
      if d.uuid == 0 {
        if d.configuration.Document? && d.configuration.version.Some? {
          d := d.(uuid := d.configuration.version.value);
        }
      }
      cache.SetCurrentConfig(serial, d.uuid);
      UpdateDevice(serial, d);
      return true;
    }

    method RollbackDeviceConfigurationChange(serial: u64) returns (found: bool)
      modifies this`devices, cache
      ensures found == (serial in old(devices))
      ensures !found ==> devices == old(devices) && cache.cache == old(cache.cache)
      ensures found ==>
        var d := Cleared(old(devices)[serial]);
        devices == old(devices)[serial := d] && cache.cache == old(cache.cache)[serial := d.uuid]
      ensures devices - {serial} == old(devices) - {serial} && cache.cache - {serial} == old(cache.cache) - {serial}
    {
      var record := GetDevice(serial);
      if record == None {
        return false;
      }
      var d := record.value;
      d := d.(pendingConfiguration := None);
      d := d.(pendingUuid := 0);
      cache.SetCurrentConfig(serial, d.uuid);
      UpdateDevice(serial, d);
      return true;
    }
  }

  class Connection {
    const serial: u64
    const storage: Storage
    const sizeOf: Configuration -> nat
    var pendingUuid: u64
    var sent: seq<Configure>

    constructor (serial: u64, storage: Storage, sizeOf: Configuration -> nat)
      ensures this.serial == serial && this.storage == storage && this.sizeOf == sizeOf && pendingUuid == 0
        && sent == []
    {
      this.serial, this.storage, this.sizeOf := serial, storage, sizeOf;
      pendingUuid, sent := 0, [];
    }

    ghost function View(): State
      reads this, storage, storage.cache
    {
      State(storage.Record(serial), if serial in storage.cache.cache then storage.cache.cache[serial] else 0,
            pendingUuid, sent)
    }

    /** The records and the cached versions of the other devices. */
    ghost function Rest(): (map<u64, Device>, map<u64, u64>)
      reads storage, storage.cache
    {
      (storage.devices - {serial}, storage.cache.cache - {serial})
    }

    /** Called with the version in a connect or state message of the device. */
    method LookForUpgrade(version: u64) returns (outcome: Outcome, upgraded: Option<u64>)
      modifies this, storage`devices, storage.cache
      ensures (View(), outcome, upgraded) == AfterReport(old(View()), version, sizeOf)
      ensures Rest() == old(Rest())
    {
      hide Confirmed;
      upgraded := None;
      if version == 0 {
        return Same, None;
      }
      var good := storage.cache.GetCurrentConfig(serial);
      if good != 0 && (good == version || good == pendingUuid) {
        upgraded := Some(version);
        pendingUuid := 0;
        return Same, upgraded;
      }
      var record := storage.GetDevice(serial);
      if record == None {
        return Same, None;
      }
      if pendingUuid != 0 && version == pendingUuid {
        upgraded := Some(version);
        var _ := storage.CompleteDeviceConfigurationChange(serial);
        pendingUuid := 0;
        return Changed, upgraded;
      }
      var d := record.value;
      if d.isSwitch && sizeOf(d.configuration) < SHORTEST {
        return Same, None;
      }
      if d.uuid == 0 {
        d := d.(uuid := VersionIn(d.configuration));
      }
      if d.uuid == version {
        upgraded := Some(version);
        pendingUuid := 0;
        d := d.(uuid := version, pendingUuid := 0, pendingConfiguration := None, pendingCommand := "");
        storage.UpdateDevice(serial, d);
        storage.cache.SetCurrentConfig(serial, version);
        return Same, upgraded;
      }
      if version > d.uuid {
        d := d.(uuid := Plus2(version));
      }
      d := d.(configuration := Stamped(d.configuration, d.uuid));
      upgraded := Some(d.uuid);
      pendingUuid := d.uuid;
      d := d.(pendingUuid := d.uuid);
      storage.UpdateDevice(serial, d);
      if d.configuration.Garbled? {
        return Failed, upgraded;
      }
      sent := sent + [Configure(d.uuid, d.configuration)];
      return Changed, upgraded;
    }

    /** What is known of any device: its record and its cached version. */
    ghost function Known(any: u64): State
      reads storage, storage.cache
    {
      State(storage.Record(any), if any in storage.cache.cache then storage.cache.cache[any] else 0, 0, [])
    }

    /** What the command manager does with an answer to a configuration sent by LookForUpgrade, when it
        has a status. The device that is meant is the one that the answer names, not the one that sent
        it; nothing changes for any other. */
    method ConfigureAnswered(named: u64, error: nat)
      modifies storage`devices, storage.cache
      ensures Known(named) == if error == 2 then AfterRollback(old(Known(named))) else AfterComplete(old(Known(named)))
      ensures forall other | other != named :: Known(other) == old(Known(other))
      ensures named == serial ==>
        View() == (if error == 2 then AfterRollback(old(View())) else AfterComplete(old(View())))
          && Rest() == old(Rest())
      ensures named != serial ==> View() == old(View())
    {
      if error == 2 {
        var _ := storage.RollbackDeviceConfigurationChange(named);
      } else {
        var _ := storage.CompleteDeviceConfigurationChange(named);
      }
    }
  }
}
