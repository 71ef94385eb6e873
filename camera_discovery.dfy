/** Discovery of the project's HTTP cameras: the nmap scan for live hosts,
    the identification header check, and the choice of at most one port per
    host. The port probe and the HEAD request are passed in as functions
    `portOpen` and `headersOf`. */
module CameraDevices {
  import opened Wrappers
  import opened Text
  import opened Nmap

  // ---------------------------------------------------------------- scan

  /** The hosts of the report lines, in order: exactly the present entries of
      `ReportEntries`, one per report line. */
  function ReportIps(lines: seq<string>): (ips: seq<string>)
    ensures |ips| == ReportCount(lines)
    ensures ips == Somes(ReportEntries(lines))
  {
    if lines == [] then []
    else
      var n := |lines| - 1;
      var last := lines[n];
      var xs := ReportEntries(lines);
      assert xs[..n] == ReportEntries(lines[..n]);
      SomesSnoc(xs, n);
      assert xs[..n + 1] == xs;
      ReportIps(lines[..n]) + (if IsReportLine(last) then [ReportIp(last)] else [])
  }

  /** `scan_subnet` of the camera discovery: one address per report line. */
  method ScanSubnet(lines: seq<string>) returns (ips: seq<string>)
    ensures ips == ReportIps(lines)
  {
    ips := [];
    var i := 0;
    while i < |lines|
      invariant 0 <= i <= |lines|
      invariant ips == ReportIps(lines[..i])
    {
      assert lines[..i + 1][..i] == lines[..i];
      if IsReportLine(lines[i]) {
        ips := ips + [ReportIp(lines[i])];
      }
      i := i + 1;
    }
    assert lines[..i] == lines;
  }

  /** Every address the scan yields is the host of one of the report lines:
      the `k`th address comes from report line `i`. */
  lemma {:induction false} ReportIpSource(lines: seq<string>, k: nat) returns (i: nat)
    requires k < |ReportIps(lines)|
    ensures i < |lines| && IsReportLine(lines[i]) && ReportIps(lines)[k] == ReportIp(lines[i])
  {
    var n := |lines| - 1;
    var front := ReportIps(lines[..n]);
    if k < |front| {
      i := ReportIpSource(lines[..n], k);
      assert lines[..n][i] == lines[i];
    } else {
      i := n;
    }
  }

  /** What each line contributes on its own: its host when it is a report line. */
  function ReportEntries(lines: seq<string>): (r: seq<Option<string>>)
    ensures |r| == |lines|
    ensures forall i :: 0 <= i < |lines| ==> r[i] == if IsReportLine(lines[i]) then Some(ReportIp(lines[i])) else None
  {
    seq(|lines|, i requires 0 <= i < |lines| => if IsReportLine(lines[i]) then Some(ReportIp(lines[i])) else None)
  }

  /** Every report line's host is scanned. */
  lemma ReportIpsComplete(lines: seq<string>, i: nat)
    requires i < |lines| && IsReportLine(lines[i])
    ensures ReportIp(lines[i]) in ReportIps(lines)
  {
    SomesComplete(ReportEntries(lines), i);
  }

  // ---------------------------------------------------------------- identification

  /** Response headers as a case-insensitive dictionary: keys are stored
      lower-cased and looked up lower-cased. */
  function Header(headers: map<string, string>, name: string, default: string): (r: string)
    ensures Lower(name) in headers ==> r == headers[Lower(name)]
    ensures Lower(name) !in headers ==> r == default
  {
    if Lower(name) in headers then headers[Lower(name)] else default
  }

  datatype Identification = Identification(isCamera: bool, deviceId: Option<string>, deviceName: Option<string>)

  /** `is_gel_camera` on the outcome of the HEAD request (`None` for a failed
      request): a camera exactly when the device-type header is
      "gel-camera", and then its id and name headers (empty when missing). */
  function IsGelCamera(response: Option<map<string, string>>): (r: Identification)
    ensures r.isCamera <==> response.Some? && "x-device-type" in response.value && response.value["x-device-type"] == "gel-camera"
    ensures r.isCamera ==> r.deviceId == Some(Header(response.value, "X-Device-Id", ""))
    ensures r.isCamera ==> r.deviceName == Some(Header(response.value, "X-Device-Name", ""))
    ensures !r.isCamera ==> r == Identification(false, None, None)
  {
    assert Lower("X-Device-Type") == "x-device-type";
    match response
    case None => Identification(false, None, None)
    case Some(headers) =>
      if Header(headers, "X-Device-Type", "") == "gel-camera" then
        Identification(true, Some(Header(headers, "X-Device-Id", "")), Some(Header(headers, "X-Device-Name", "")))
      else Identification(false, None, None)
  }

  // ---------------------------------------------------------------- discovery

  const HttpPorts: seq<nat> := [80, 8080]

  datatype CameraEntry = CameraEntry(ip: string, port: nat, mac: string, name: string, url: string, streamUrl: string)

  function BaseUrl(ip: string, port: nat): string {
    "http://" + ip + ":" + NatToString(port)
  }

  /** The entry for a camera found at `ip:port`. */
  function Entry(ip: string, port: nat, id: Identification): (e: CameraEntry)
    requires id.isCamera && id.deviceId.Some? && id.deviceName.Some?
    ensures e.url == "http://" + ip + ":" + NatToString(port)
    ensures e.streamUrl == e.url + ":81/stream"
  {
    CameraEntry(ip, port, id.deviceId.value, id.deviceName.value, BaseUrl(ip, port), BaseUrl(ip, port) + ":81/stream")
  }

  predicate CameraAt(ip: string, port: nat, portOpen: (string, nat) -> bool, headersOf: (string, nat) -> Option<map<string, string>>) {
    portOpen(ip, port) && IsGelCamera(headersOf(ip, port)).isCamera
  }

  /** The entry for the first port of `ports` at which `ip` answers as a camera. */
  function FirstCamera(ip: string, ports: seq<nat>, portOpen: (string, nat) -> bool,
                       headersOf: (string, nat) -> Option<map<string, string>>): (r: Option<CameraEntry>)
    ensures r.None? <==> forall j :: 0 <= j < |ports| ==> !CameraAt(ip, ports[j], portOpen, headersOf)
    ensures r.Some? ==> exists j :: 0 <= j < |ports| && CameraAt(ip, ports[j], portOpen, headersOf)
                          && (forall j' :: 0 <= j' < j ==> !CameraAt(ip, ports[j'], portOpen, headersOf))
                          && r.value == Entry(ip, ports[j], IsGelCamera(headersOf(ip, ports[j])))
  {
    if ports == [] then None
    else if CameraAt(ip, ports[0], portOpen, headersOf) then
      Some(Entry(ip, ports[0], IsGelCamera(headersOf(ip, ports[0]))))
    else
      var r := FirstCamera(ip, ports[1..], portOpen, headersOf);
      assert forall j :: 1 <= j < |ports| ==> ports[j] == ports[1..][j - 1];
      if r.Some? then
        var j :| 0 <= j < |ports[1..]| && CameraAt(ip, ports[1..][j], portOpen, headersOf)
                 && (forall j' :: 0 <= j' < j ==> !CameraAt(ip, ports[1..][j'], portOpen, headersOf))
                 && r.value == Entry(ip, ports[1..][j], IsGelCamera(headersOf(ip, ports[1..][j])));
        assert forall j' :: 0 <= j' < j + 1 ==> !CameraAt(ip, ports[j'], portOpen, headersOf) by {
          forall j' | 0 <= j' < j + 1 ensures !CameraAt(ip, ports[j'], portOpen, headersOf) {
            if j' > 0 { assert ports[j'] == ports[1..][j' - 1]; }
          }
        }
        r
      else r
  }

  /** The entries of `discover_cameras` for the scanned addresses, in scan order. */
  function Cameras(ips: seq<string>, portOpen: (string, nat) -> bool,
                   headersOf: (string, nat) -> Option<map<string, string>>): (r: seq<CameraEntry>)
    ensures |r| <= |ips|
  {
    if ips == [] then []
    else
      var found := FirstCamera(ips[|ips| - 1], HttpPorts, portOpen, headersOf);
      Cameras(ips[..|ips| - 1], portOpen, headersOf) + (if found.Some? then [found.value] else [])
  }

  /** What each scanned address contributes on its own: its first camera, if any. */
  function CameraResults(ips: seq<string>, portOpen: (string, nat) -> bool,
                         headersOf: (string, nat) -> Option<map<string, string>>): (r: seq<Option<CameraEntry>>)
    ensures |r| == |ips|
    ensures forall i :: 0 <= i < |ips| ==> r[i] == FirstCamera(ips[i], HttpPorts, portOpen, headersOf)
  {
    seq(|ips|, i requires 0 <= i < |ips| => FirstCamera(ips[i], HttpPorts, portOpen, headersOf))
  }

  /** The list holds one entry per address that answers as a camera, in scan
      order. */
  lemma {:induction false} CamerasInOrder(ips: seq<string>, portOpen: (string, nat) -> bool,
                                          headersOf: (string, nat) -> Option<map<string, string>>)
    ensures Cameras(ips, portOpen, headersOf) == Somes(CameraResults(ips, portOpen, headersOf))
  {
    if ips != [] {
      var n := |ips| - 1;
      var xs := CameraResults(ips, portOpen, headersOf);
      var found := FirstCamera(ips[n], HttpPorts, portOpen, headersOf);
      var tail := if found.Some? then [found.value] else [];
      assert Cameras(ips, portOpen, headersOf) == Cameras(ips[..n], portOpen, headersOf) + tail;
      CamerasInOrder(ips[..n], portOpen, headersOf);
      assert xs[..n] == CameraResults(ips[..n], portOpen, headersOf);
      SomesSnoc(xs, n);
      assert xs[..n + 1] == xs;
    }
  }

  /** Every address that answers as a camera on port 80 or 8080 is listed. */
  lemma CamerasComplete(ips: seq<string>, portOpen: (string, nat) -> bool,
                        headersOf: (string, nat) -> Option<map<string, string>>, i: nat)
    requires i < |ips| && FirstCamera(ips[i], HttpPorts, portOpen, headersOf).Some?
    ensures FirstCamera(ips[i], HttpPorts, portOpen, headersOf).value in Cameras(ips, portOpen, headersOf)
  {
    CamerasInOrder(ips, portOpen, headersOf);
    SomesComplete(CameraResults(ips, portOpen, headersOf), i);
  }

  /** The port loop for one address: ports in order, stopping at the first
      camera. */
  method FindCamera(ip: string, portOpen: (string, nat) -> bool,
                    headersOf: (string, nat) -> Option<map<string, string>>) returns (entry: Option<CameraEntry>)
    ensures entry == FirstCamera(ip, HttpPorts, portOpen, headersOf)
  {
    var j := 0;
    while j < |HttpPorts|
      invariant 0 <= j <= |HttpPorts|
      invariant FirstCamera(ip, HttpPorts[j..], portOpen, headersOf) == FirstCamera(ip, HttpPorts, portOpen, headersOf)
    {
      var port := HttpPorts[j];
      assert HttpPorts[j..][1..] == HttpPorts[j + 1..];
      if portOpen(ip, port) {
        var id := IsGelCamera(headersOf(ip, port));
        if id.isCamera {
          return Some(Entry(ip, port, id));
        }
      }
      j := j + 1;
    }
    return None;
  }

  /** `discover_cameras` */
  method DiscoverCameras(ips: seq<string>, portOpen: (string, nat) -> bool,
                         headersOf: (string, nat) -> Option<map<string, string>>) returns (cameras: seq<CameraEntry>)
    ensures cameras == Cameras(ips, portOpen, headersOf)
  {
    cameras := [];
    var i := 0;
    while i < |ips|
      invariant 0 <= i <= |ips|
      invariant cameras == Cameras(ips[..i], portOpen, headersOf)
    {
      assert ips[..i + 1][..i] == ips[..i];
      var entry := FindCamera(ips[i], portOpen, headersOf);
      if entry.Some? {
        cameras := cameras + [entry.value];
      }
      i := i + 1;
    }
    assert ips[..i] == ips;
  }

  /** Each entry is for a scanned address, at the first of ports 80 and 8080
      where that address is open and identifies as a camera, with the
      camera's id and name and the two URLs built from address and port:
      the `k`th entry is the one for scanned address `i`. */
  lemma {:induction false} CameraSource(ips: seq<string>, portOpen: (string, nat) -> bool,
                                        headersOf: (string, nat) -> Option<map<string, string>>, k: nat) returns (i: nat)
    requires k < |Cameras(ips, portOpen, headersOf)|
    ensures i < |ips| && Cameras(ips, portOpen, headersOf)[k].ip == ips[i]
    ensures Some(Cameras(ips, portOpen, headersOf)[k]) == FirstCamera(ips[i], HttpPorts, portOpen, headersOf)
  {
    var n := |ips| - 1;
    var front := Cameras(ips[..n], portOpen, headersOf);
    if k < |front| {
      i := CameraSource(ips[..n], portOpen, headersOf, k);
      assert ips[..n][i] == ips[i];
    } else {
      i := n;
    }
  }

  /** A host answering as a camera on both ports is listed once, on port 80. */
  lemma PortEightyWins(ip: string, portOpen: (string, nat) -> bool,
                       headersOf: (string, nat) -> Option<map<string, string>>)
    requires CameraAt(ip, 80, portOpen, headersOf) && CameraAt(ip, 8080, portOpen, headersOf)
    ensures Cameras([ip], portOpen, headersOf) == [Entry(ip, 80, IsGelCamera(headersOf(ip, 80)))]
  {
    assert [ip][..0] == [];
  }
}
