/** Discovery of ESPHome presence sensors: the nmap scan that pairs live
    hosts with MAC addresses, the Espressif vendor check, the classification
    of a device by its entities, and the discovery list that puts the known
    sensor first and never lists an address twice. The entity listing and
    the port probe are passed in as functions `entitiesOf` and `portOpen`;
    the status and last-seen time of a discovered sensor are not modelled. */
module PirDevices {
  import opened Wrappers
  import opened Text
  import opened Nmap

  // ---------------------------------------------------------------- scan

  /** The scanner's state between lines: the address of a report line still
      waiting for its MAC line, and the pairs found so far. */
  datatype ScanState = ScanState(current: Option<string>, devices: seq<(string, string)>)

  /** Python truthiness of the pending address. */
  predicate Pending(st: ScanState) {
    st.current.Some? && st.current.value != []
  }

  predicate IsMacLine(line: string) {
    Contains(line, MacMarker)
  }

  /** One line of the scan. `None` where the source fails with an index
      error on a MAC line it cannot cut. */
  function ScanLine(st: ScanState, line: string): (r: Option<ScanState>)
    ensures IsReportLine(line) ==> r == Some(ScanState(Some(ReportIp(line)), st.devices))
    ensures !IsReportLine(line) && !(IsMacLine(line) && Pending(st)) ==> r == Some(st)
    ensures !IsReportLine(line) && IsMacLine(line) && Pending(st) ==>
              (r.Some? <==> MacOf(line).Some?)
              && (r.Some? ==> r.value == ScanState(None, st.devices + [(st.current.value, MacOf(line).value)]))
  {
    if IsReportLine(line) then Some(ScanState(Some(ReportIp(line)), st.devices))
    else if IsMacLine(line) && Pending(st) then
      match MacOf(line)
      case None => None
      case Some(mac) => Some(ScanState(None, st.devices + [(st.current.value, mac)]))
    else Some(st)
  }

  /** The scan over a list of lines, from no pending address and no pairs. */
  function ScanLines(lines: seq<string>): Option<ScanState> {
    if lines == [] then Some(ScanState(None, []))
    else match ScanLines(lines[..|lines| - 1])
      case None => None
      case Some(st) => ScanLine(st, lines[|lines| - 1])
  }

  /** `scan_subnet` over the output lines: `None` when it fails. */
  method ScanSubnet(lines: seq<string>) returns (devices: Option<seq<(string, string)>>)
    ensures devices.None? <==> ScanLines(lines).None?
    ensures devices.Some? ==> devices.value == ScanLines(lines).value.devices
  {
    var st := ScanState(None, []);
    var i := 0;
    while i < |lines|
      invariant 0 <= i <= |lines|
      invariant ScanLines(lines[..i]) == Some(st)
    {
      assert lines[..i + 1][..i] == lines[..i];
      var next := ScanLine(st, lines[i]);
      if next.None? {
        assert ScanLines(lines[..i + 1]) == None;
        NoRecovery(lines, i + 1);
        return None;
      }
      st := next.value;
      i := i + 1;
    }
    assert lines[..i] == lines;
    return Some(st.devices);
  }

  /** Once the scan has failed it stays failed. */
  lemma {:induction false} NoRecovery(lines: seq<string>, i: nat)
    requires i <= |lines| && ScanLines(lines[..i]) == None
    ensures ScanLines(lines) == None
    decreases |lines| - i
  {
    if i < |lines| {
      assert lines[..i + 1][..i] == lines[..i];
      NoRecovery(lines, i + 1);
    } else {
      assert lines[..i] == lines;
    }
  }

  /** Every pair uses up the address of its own report line: there are never
      more pairs, plus a pending address, than report lines. */
  lemma {:induction false} PairsNeedReports(lines: seq<string>)
    requires ScanLines(lines).Some?
    ensures |ScanLines(lines).value.devices| + (if ScanLines(lines).value.current.Some? then 1 else 0) <= ReportCount(lines)
  {
    if lines != [] {
      PairsNeedReports(lines[..|lines| - 1]);
    }
  }

  /** Every pair holds a non-empty address and a lower-case MAC without spaces. */
  predicate WellFormedPairs(devices: seq<(string, string)>) {
    forall k :: 0 <= k < |devices| ==>
      devices[k].0 != [] && NoSpace(devices[k].0) && devices[k].1 != [] && Lower(devices[k].1) == devices[k].1
  }

  lemma {:induction false} ScanPairsWellFormed(lines: seq<string>)
    requires ScanLines(lines).Some?
    ensures WellFormedPairs(ScanLines(lines).value.devices)
    ensures ScanLines(lines).value.current.Some? ==> NoSpace(ScanLines(lines).value.current.value)
  {
    if lines != [] {
      ScanPairsWellFormed(lines[..|lines| - 1]);
    }
  }

  /** A report line whose host gets no MAC line before the next report line
      produces nothing: the second host is paired with the MAC. */
  lemma UnpairedReportIsDropped(ip1: string, ip2: string, mac: string, vendor: string)
    requires ip1 != [] && NoSpace(ip1) && ip1[0] !in Parens && ip1[|ip1| - 1] !in Parens
    requires ip2 != [] && NoSpace(ip2) && ip2[0] !in Parens && ip2[|ip2| - 1] !in Parens
    requires mac != [] && NoSpace(mac) && 'M' !in mac && 'M' !in vendor
    ensures var lines := [ReportPrefix + [' '] + ip1, ReportPrefix + [' '] + ip2, MacSeparator + mac + [' '] + vendor];
      ScanLines(lines) == Some(ScanState(None, [(ip2, Lower(mac))]))
  {
    var l1 := ReportPrefix + [' '] + ip1;
    var l2 := ReportPrefix + [' '] + ip2;
    var l3 := MacSeparator + mac + [' '] + vendor;
    var lines := [l1, l2, l3];
    ReportIpOfLine([], ip1, false);
    ReportIpOfLine([], ip2, false);
    assert ReportPrefix + [] == ReportPrefix;
    MacOfLine(mac, vendor);
    assert !IsReportLine(l3) by {
      assert l3[0] == 'M' && ReportPrefix[0] == 'N';
    }
    assert IsMacLine(l3) by {
      assert l3[..|MacMarker|] == MacMarker;
    }
    assert lines[..1] == [l1] && lines[..2] == [l1, l2] && lines[..3] == lines;
    assert [l1][..0] == [] && [l1, l2][..1] == [l1];
    assert ScanLines([l1]) == Some(ScanState(Some(ip1), []));
    assert ScanLines([l1, l2]) == Some(ScanState(Some(ip2), []));
    assert Pending(ScanState(Some(ip2), []));
    assert MacOf(l3) == Some(Lower(mac));
    var empty: seq<(string, string)> := [];
    assert empty + [(ip2, Lower(mac))] == [(ip2, Lower(mac))];
    assert ScanLine(ScanState(Some(ip2), []), l3) == Some(ScanState(None, [(ip2, Lower(mac))]));
    assert ScanLines(lines) == ScanLine(ScanState(Some(ip2), []), l3);
  }

  // ---------------------------------------------------------------- vendor

  /** The Espressif vendor prefixes, lower-case. */
  const EspressifOuis: set<string> := {"84:1f:e8", "24:6f:28", "7c:df:a1", "30:ae:a4"}

  /** `is_espressif`: an empty MAC is not; otherwise its first eight
      characters must be one of the prefixes. */
  function IsEspressif(mac: string): (r: bool)
    ensures r <==> |mac| >= 8 && mac[..8] in EspressifOuis
  {
    if mac == [] then false
    else (if |mac| >= 8 then mac[..8] else mac) in EspressifOuis
  }

  // ---------------------------------------------------------------- classification

  /** An entity as the ESPHome API lists it: the name of its info type and
      its user-facing name. */
  datatype Entity = Entity(typeName: string, name: string)

  const PresenceKeywords: seq<string> := ["person", "presence", "occupancy", "pir", "motion", "target", "detected"]

  function HasPresenceKeyword(name: string): (r: bool)
    ensures r <==> exists k :: 0 <= k < |PresenceKeywords| && Contains(name, PresenceKeywords[k])
  {
    assert PresenceKeywords[0] == "person" && PresenceKeywords[1] == "presence" && PresenceKeywords[2] == "occupancy";
    assert PresenceKeywords[3] == "pir" && PresenceKeywords[4] == "motion" && PresenceKeywords[5] == "target";
    assert PresenceKeywords[6] == "detected";
    Contains(name, "person") || Contains(name, "presence") || Contains(name, "occupancy") || Contains(name, "pir")
    || Contains(name, "motion") || Contains(name, "target") || Contains(name, "detected")
  }

  predicate IsPresenceEntity(e: Entity) {
    Contains(e.typeName, "BinarySensor") && HasPresenceKeyword(Lower(e.name))
  }

  /** Whether some entity, in listing order, is a binary sensor with a
      presence-like name. */
  function AnyPresenceEntity(es: seq<Entity>): (r: bool)
    ensures r <==> exists i :: 0 <= i < |es| && IsPresenceEntity(es[i])
  {
    if es == [] then false
    else IsPresenceEntity(es[0]) || (assert forall i :: 1 <= i < |es| ==> es[i] == es[1..][i - 1]; AnyPresenceEntity(es[1..]))
  }

  /** `is_presence_sensor`: `None` stands for a failed connection or listing,
      which classifies the device as not a presence sensor. */
  function IsPresenceSensor(entities: Option<seq<Entity>>): (r: bool)
    ensures r <==> entities.Some? && exists i :: 0 <= i < |entities.value| && IsPresenceEntity(entities.value[i])
  {
    entities.Some? && AnyPresenceEntity(entities.value)
  }

  /** A device listing no entity whose type name contains "BinarySensor"
      is never a presence sensor, whatever its entities are called. */
  lemma PlainSensorIsNotPresence(entities: seq<Entity>)
    requires forall i :: 0 <= i < |entities| ==> !Contains(entities[i].typeName, "BinarySensor")
    ensures !IsPresenceSensor(Some(entities))
  {
  }

  /** The type name of a plain sensor, `SensorInfo`, is not a binary one. */
  lemma SensorInfoIsPlain(name: string)
    ensures !Contains("SensorInfo", "BinarySensor")
    ensures !IsPresenceEntity(Entity("SensorInfo", name))
  {
    NotContainsChar("SensorInfo", "BinarySensor", 0, 'B');
  }

  /** A binary sensor named "Person Detected" is one. */
  lemma PersonBinarySensorIsPresence()
    ensures IsPresenceEntity(Entity("BinarySensorInfo", "Person Detected"))
  {
    ContainsAt("BinarySensorInfo", "BinarySensor", 0);
    assert Lower("Person Detected")[..6] == "person";
    ContainsAt(Lower("Person Detected"), "person", 0);
  }

  // ---------------------------------------------------------------- discovery

  datatype KnownSensor = KnownSensor(host: string, port: int, name: string)

  /** The configured sensors, checked before the scan. */
  const KnownSensors: seq<KnownSensor> := [KnownSensor("10.42.0.156", 6053, "seeedstudio-mr60bha2-kit-8e65b4")]

  const EsphomePort: int := 6053

  /** A discovered sensor; `mac` is absent for a configured one. */
  datatype Sensor = Sensor(name: string, ip: string, port: int, mac: Option<string>)

  function Ips(sensors: seq<Sensor>): (r: set<string>)
    ensures forall k :: 0 <= k < |sensors| ==> sensors[k].ip in r
    ensures forall ip :: ip in r ==> exists k :: 0 <= k < |sensors| && sensors[k].ip == ip
  {
    set k | 0 <= k < |sensors| :: sensors[k].ip
  }

  lemma IpsSnoc(sensors: seq<Sensor>, s: Sensor)
    ensures Ips(sensors + [s]) == Ips(sensors) + {s.ip}
  {
    var r := sensors + [s];
    forall ip | ip in Ips(sensors) ensures ip in Ips(r) {
      var k :| 0 <= k < |sensors| && sensors[k].ip == ip;
      assert r[k] == sensors[k];
    }
    assert r[|sensors|] == s;
  }

  /** The configured sensors that confirm to be presence sensors, in order. */
  function ConfirmedKnown(known: seq<KnownSensor>, entitiesOf: (string, int) -> Option<seq<Entity>>): seq<Sensor> {
    if known == [] then []
    else
      var k := known[|known| - 1];
      ConfirmedKnown(known[..|known| - 1], entitiesOf)
        + (if IsPresenceSensor(entitiesOf(k.host, k.port)) then [Sensor(k.name, k.host, k.port, None)] else [])
  }

  /** A scanned device is kept when it is an Espressif device whose API port
      is open and that confirms to be a presence sensor. */
  predicate Qualifies(ip: string, mac: string, entitiesOf: (string, int) -> Option<seq<Entity>>, portOpen: (string, int) -> bool) {
    IsEspressif(mac) && portOpen(ip, EsphomePort) && IsPresenceSensor(entitiesOf(ip, EsphomePort))
  }

  /** The entry for a newly discovered sensor: named "sensor-" and its MAC
      without colons, at the ESPHome port. */
  function ScannedSensor(ip: string, mac: string): (s: Sensor)
    ensures ':' !in s.name
    ensures s.name == "sensor-" + RemoveChar(mac, ':')
    ensures s.ip == ip && s.port == EsphomePort && s.mac == Some(mac)
  {
    assert ':' !in "sensor-";
    Sensor("sensor-" + RemoveChar(mac, ':'), ip, EsphomePort, Some(mac))
  }

  /** The test `discover_presence_sensors` applies to a scanned
      (address, MAC) pair. */
  function QualifiesFor(entitiesOf: (string, int) -> Option<seq<Entity>>, portOpen: (string, int) -> bool): (keep: ((string, string)) -> bool)
    ensures forall d :: keep(d) == Qualifies(d.0, d.1, entitiesOf, portOpen)
  {
    (d: (string, string)) => Qualifies(d.0, d.1, entitiesOf, portOpen)
  }

  /** One scanned device offered to the list: skipped when its address is
      already listed, appended when it passes `keep`. */
  function OfferScanned(sensors: seq<Sensor>, device: (string, string), keep: ((string, string)) -> bool): seq<Sensor> {
    if device.0 in Ips(sensors) then sensors
    else if keep(device) then sensors + [ScannedSensor(device.0, device.1)]
    else sensors
  }

  function AfterScan(base: seq<Sensor>, scanned: seq<(string, string)>, keep: ((string, string)) -> bool): seq<Sensor> {
    if scanned == [] then base
    else OfferScanned(AfterScan(base, scanned[..|scanned| - 1], keep), scanned[|scanned| - 1], keep)
  }

  /** `discover_presence_sensors`: the confirmed configured sensors, then the
      qualifying scanned devices at addresses not yet listed. */
  function Discover(scanned: seq<(string, string)>, entitiesOf: (string, int) -> Option<seq<Entity>>,
                    portOpen: (string, int) -> bool): seq<Sensor> {
    AfterScan(ConfirmedKnown(KnownSensors, entitiesOf), scanned, QualifiesFor(entitiesOf, portOpen))
  }

  method DiscoverPresenceSensors(scanned: seq<(string, string)>, entitiesOf: (string, int) -> Option<seq<Entity>>,
                                 portOpen: (string, int) -> bool) returns (sensors: seq<Sensor>)
    ensures sensors == Discover(scanned, entitiesOf, portOpen)
  {
    sensors := [];
    var seen: set<string> := {};
    var i := 0;
    while i < |KnownSensors|
      invariant 0 <= i <= |KnownSensors|
      invariant sensors == ConfirmedKnown(KnownSensors[..i], entitiesOf) && seen == Ips(sensors)
    {
      var device := KnownSensors[i];
      assert KnownSensors[..i + 1][..i] == KnownSensors[..i];
      if IsPresenceSensor(entitiesOf(device.host, device.port)) {
        IpsSnoc(sensors, Sensor(device.name, device.host, device.port, None));
        sensors := sensors + [Sensor(device.name, device.host, device.port, None)];
        seen := seen + {device.host};
      }
      i := i + 1;
    }
    assert KnownSensors[..i] == KnownSensors;
    ghost var base := sensors;
    ghost var keep := QualifiesFor(entitiesOf, portOpen);
    var j := 0;
    while j < |scanned|
      invariant 0 <= j <= |scanned|
      invariant sensors == AfterScan(base, scanned[..j], keep) && seen == Ips(sensors)
    {
      var (ip, mac) := scanned[j];
      assert scanned[..j + 1][..j] == scanned[..j];
      assert keep(scanned[j]) == Qualifies(ip, mac, entitiesOf, portOpen);
      if ip !in seen && IsEspressif(mac) && portOpen(ip, EsphomePort) && IsPresenceSensor(entitiesOf(ip, EsphomePort)) {
        IpsSnoc(sensors, ScannedSensor(ip, mac));
        sensors := sensors + [ScannedSensor(ip, mac)];
        seen := seen + {ip};
      }
      j := j + 1;
    }
    assert scanned[..j] == scanned;
  }

  predicate UniqueIps(sensors: seq<Sensor>) {
    forall a, b :: 0 <= a < b < |sensors| ==> sensors[a].ip != sensors[b].ip
  }

  lemma {:induction false} AfterScanKeepsBase(base: seq<Sensor>, scanned: seq<(string, string)>, keep: ((string, string)) -> bool)
    ensures var r := AfterScan(base, scanned, keep);
      |base| <= |r| && r[..|base|] == base
    ensures UniqueIps(base) ==> UniqueIps(AfterScan(base, scanned, keep))
  {
    if scanned != [] {
      var n := |scanned| - 1;
      var front := AfterScan(base, scanned[..n], keep);
      AfterScanKeepsBase(base, scanned[..n], keep);
      var r := AfterScan(base, scanned, keep);
      assert r == front || r == front + [ScannedSensor(scanned[n].0, scanned[n].1)];
      assert r[..|front|] == front;
    }
  }

  /** An entry added by the scan comes from a scanned device that passed
      `keep`: the `k`th entry is the one for scanned device `d`. */
  lemma {:induction false} ScannedSource(base: seq<Sensor>, scanned: seq<(string, string)>,
                                         keep: ((string, string)) -> bool, k: nat) returns (d: nat)
    requires |base| <= k < |AfterScan(base, scanned, keep)|
    ensures d < |scanned| && keep(scanned[d])
    ensures AfterScan(base, scanned, keep)[k] == ScannedSensor(scanned[d].0, scanned[d].1)
  {
    var n := |scanned| - 1;
    var front := AfterScan(base, scanned[..n], keep);
    AfterScanKeepsBase(base, scanned[..n], keep);
    if k < |front| {
      d := ScannedSource(base, scanned[..n], keep, k);
      assert scanned[..n][d] == scanned[d];
      assert AfterScan(base, scanned, keep)[..|front|] == front;
    } else {
      d := n;
    }
  }

  /** No two discovered sensors share an address and the confirmed
      configured sensors come first. */
  lemma DiscoverShape(scanned: seq<(string, string)>, entitiesOf: (string, int) -> Option<seq<Entity>>,
                      portOpen: (string, int) -> bool)
    ensures var r := Discover(scanned, entitiesOf, portOpen);
      var known := ConfirmedKnown(KnownSensors, entitiesOf);
      UniqueIps(r) && |known| <= |r| && r[..|known|] == known
  {
    var known := ConfirmedKnown(KnownSensors, entitiesOf);
    assert KnownSensors[..0] == [];
    assert UniqueIps(known);
    AfterScanKeepsBase(known, scanned, QualifiesFor(entitiesOf, portOpen));
  }

  /** Every entry after the configured sensors is a qualifying scanned
      device: the `k`th entry is the one for scanned device `d`. */
  lemma DiscoveredSource(scanned: seq<(string, string)>, entitiesOf: (string, int) -> Option<seq<Entity>>,
                         portOpen: (string, int) -> bool, k: nat) returns (d: nat)
    requires |ConfirmedKnown(KnownSensors, entitiesOf)| <= k < |Discover(scanned, entitiesOf, portOpen)|
    ensures d < |scanned| && Qualifies(scanned[d].0, scanned[d].1, entitiesOf, portOpen)
    ensures Discover(scanned, entitiesOf, portOpen)[k] == ScannedSensor(scanned[d].0, scanned[d].1)
  {
    d := ScannedSource(ConfirmedKnown(KnownSensors, entitiesOf), scanned, QualifiesFor(entitiesOf, portOpen), k);
  }

  /** Every scanned device that qualifies has its address listed. */
  lemma QualifyingDevicesAreListed(scanned: seq<(string, string)>, entitiesOf: (string, int) -> Option<seq<Entity>>,
                                   portOpen: (string, int) -> bool, d: nat)
    requires d < |scanned| && Qualifies(scanned[d].0, scanned[d].1, entitiesOf, portOpen)
    ensures scanned[d].0 in Ips(Discover(scanned, entitiesOf, portOpen))
  {
    KeptDevicesAreListed(ConfirmedKnown(KnownSensors, entitiesOf), scanned, QualifiesFor(entitiesOf, portOpen), d);
  }

  lemma {:induction false} KeptDevicesAreListed(base: seq<Sensor>, scanned: seq<(string, string)>,
                                                keep: ((string, string)) -> bool, d: nat)
    requires d < |scanned| && keep(scanned[d])
    ensures scanned[d].0 in Ips(AfterScan(base, scanned, keep))
  {
    var n := |scanned| - 1;
    var front := AfterScan(base, scanned[..n], keep);
    OfferKeepsIps(front, scanned[n], keep);
    if d < n {
      assert scanned[..n][d] == scanned[d];
      KeptDevicesAreListed(base, scanned[..n], keep, d);
    }
  }

  /** Offering a device never drops an address, and lists a kept one. */
  lemma OfferKeepsIps(sensors: seq<Sensor>, device: (string, string), keep: ((string, string)) -> bool)
    ensures Ips(sensors) <= Ips(OfferScanned(sensors, device, keep))
    ensures keep(device) ==> device.0 in Ips(OfferScanned(sensors, device, keep))
  {
    IpsSnoc(sensors, ScannedSensor(device.0, device.1));
  }
}
