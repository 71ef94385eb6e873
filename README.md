# gel-controller in Dafny

A verified model of the occupancy-to-camera coordination of the gel-controller
("Guard-e-loo") system and of the parsing and selection helpers around it.

- **Rooms.** A room holds an occupancy state, "occupied" or "empty".
- **Detectors.** Person detectors write that state from heart-rate readings.
  A reading refreshes the last heartbeat time. A silence longer than the
  timeout empties the room.
- **Cameras.** Cameras read the state: a camera is "active" only while its
  room is empty, and it reports "<name> active" at most once per output
  interval.
- **Camera status machine.** A separate six-status state machine with an
  allowed-move table keeps an append-only history.
- **Room controller.** It keeps the rooms, a running flag, and one task per
  camera and per detector.
- **Helper scripts.** Around the controller sit:
  - the nmap-based discovery of presence sensors and HTTP cameras;
  - the ESP32 deployment script's host classification, upload retries and
    configuration merge;
  - the changeset comparison script's file-name parsing and baseline selection;
  - the stand-alone heartbeat monitor that reads the sensor's log.

## How the model is organised

There is one module per source file:

| Module | Source file |
|---|---|
| `CameraStates` | `camera_state.py` |
| `Cameras` | `camera.py` |
| `Rooms` | `room.py` |
| `PersonDetectors` | `person_detector.py` |
| `RoomControllers` | `room_controller.py` |
| `SpotTheDiff` | `spot_the_diff.py` |
| `DeployEsp32` | `deploy_esp32_camera.py` |
| `PirDevices` | `devices/pir.py` |
| `CameraDevices` | `devices/camera.py` |
| `HeartbeatMonitor` | `detect_person.py` |

Four shared modules support them:

- `Wrappers`: `Option` and `Result`.
- `Text`: the Python string operations used, including `split()`, `strip()`, `str.split(sep)` and ASCII `lower()`/`upper()`.
- `Membership`: append-if-absent and remove-first lists.
- `Nmap`: the two nmap output lines.

How the source's parts are modelled:

- **Classes.** The classes whose fields the source updates are Dafny classes. Their methods carry `modifies` clauses and state the whole new state.
- **Loops.** The loops of the scripts are methods with loop invariants. Each is proved equal to a specification function, and the properties are proved about those functions.
- **Outside world.** Clocks, subprocess output, network probes, HTTP headers, `urlparse` and `ipaddress` are parameters: a `now: real`, a list of lines, or a function such as `portOpen`, `entitiesOf` or `headersOf`.
- **Regular expressions.** Each pattern the source uses is an explicit scanner, together with a declarative predicate and lemmas tying the two together.
- **End of line.** Python's `$` also matches before one final line feed, and that is modelled.

## Model

| member | source | states |
|---|---|---|
| CameraStates.TableShape | gel_controller/camera_state.py:35-42 | RECORDING is entered only from ACTIVE, ERROR never directly from OFFLINE, and no status has an edge to itself |
| CameraStates.AppendKeepsHistoryShape | gel_controller/camera_state.py:118-120 | appending an allowed move keeps every consecutive history pair an allowed edge, and keeps entry times non-decreasing |
| CameraStates.HistoryTail | gel_controller/camera_state.py:146-148 | `h[-limit:]`: the whole history for no limit or 0, the last min(limit, \|h\|) entries for limit > 0, and Python's negative-slice result for limit < 0 |
| CameraStates.CameraState.constructor | gel_controller/camera_state.py:44-54 | status is the initial status, entered at `now`, with no error message and a one-entry history (initial, now) |
| CameraStates.CameraState.Default | gel_controller/camera_state.py:44-54 | the constructor without an initial status: OFFLINE, entered at `now`, no error message and the one-entry history (OFFLINE, now) |
| CameraStates.CameraState.TransitionTo | gel_controller/camera_state.py:91-134 | the move succeeds iff the target is the current status or an allowed edge; a same-status or rejected move changes nothing; an allowed move sets status and entered-at, appends exactly (target, now), and sets the error message to `reason` for ERROR and to none otherwise; the history invariant (non-empty, first entry is the initial status, last is (status, entered-at), every step an allowed edge) is kept |
| CameraStates.CameraState.IsOperational | gel_controller/camera_state.py:81-84 | true iff the status is INACTIVE, ACTIVE or RECORDING |
| CameraStates.CameraState.CanRecord | gel_controller/camera_state.py:86-89 | true iff the status is ACTIVE, and it implies IsOperational |
| CameraStates.CameraState.GetHistory | gel_controller/camera_state.py:136-148 | a copy of the whole history for no limit or 0, otherwise its last `limit` entries |
| Cameras.PolicyState | gel_controller/camera.py:125-132 | "empty" gives "active", "occupied" gives "inactive", and any other room state keeps the current camera state |
| Cameras.PolicyIdempotentAndPrivate | gel_controller/camera.py:125-132 | applying the room rule twice equals applying it once, and it activates only when the room is empty or the camera was already active |
| Cameras.Camera.constructor | gel_controller/camera.py:23-52 | name, room, state, intervals as given and last output time 0 |
| Cameras.Camera.New | gel_controller/camera.py:23-52 | no camera is made iff the initial state is not "active" or "inactive"; otherwise a fresh camera with the given fields and last output time 0 |
| Cameras.Camera.NewWithDefaults | gel_controller/camera.py:27-29 | the default camera is "inactive" with poll and output intervals 10.0 and last output time 0 |
| Cameras.Camera.SetState | gel_controller/camera.py:77-95 | accepted iff the value is "active" or "inactive"; an accepted value becomes the state, a rejected one leaves it unchanged |
| Cameras.Camera.CheckRoomAndUpdateState | gel_controller/camera.py:115-132 | the new state is the room rule applied to the room's state and the old camera state |
| Cameras.Camera.OutputStatus | gel_controller/camera.py:134-147 | a line is emitted iff now − last output ≥ output interval and the state is "active"; it reads "<name> active" and stamps the last output time with `now`; otherwise nothing changes |
| Membership.AppendIfAbsent | gel_controller/room.py:126-127 | the member is present afterwards, the list grows by at most that one member, an absent member is appended, and a duplicate-free list stays duplicate-free |
| Membership.RemoveFirst | gel_controller/room.py:139-140 | removing a member deletes exactly its first occurrence; removing a non-member changes nothing |
| Membership.RemoveFirstMembers | gel_controller/room.py:139-140 | every other member survives the removal, and nothing else appears |
| Membership.RemoveFirstNoDuplicates | gel_controller/room.py:139-140 | on a duplicate-free list the removed member is gone entirely and the list stays duplicate-free |
| Membership.AddThenRemove | gel_controller/room.py:126-143 | adding an absent member and then removing it restores the original list |
| Membership.NoDuplicatesCountsOnce | gel_controller/room.py:126-130 | in a duplicate-free list each member occurs exactly once |
| Rooms.Room.constructor | gel_controller/room.py:25-44 | a valid room with the given id, name and state and empty member lists |
| Rooms.Room.New | gel_controller/room.py:25-44 | no room is made iff the initial state is not "occupied" or "empty" |
| Rooms.Room.NewWithDefaults | gel_controller/room.py:25 | the default initial state is "empty" |
| Rooms.Room.SetState | gel_controller/room.py:73-100 | accepted iff the value is "occupied" or "empty"; an accepted value becomes the state, a rejected one leaves it unchanged |
| Rooms.Room.AddCamera | gel_controller/room.py:119-130 | the camera list becomes append-if-absent of the old list and stays duplicate-free |
| Rooms.Room.RemoveCamera | gel_controller/room.py:132-143 | the camera list loses the camera's first occurrence, and the camera is no longer a member |
| Rooms.Room.SetCameraInactive | gel_controller/room.py:145-156 | a member camera becomes "inactive"; a non-member keeps its state; no other object changes |
| Rooms.Room.AddPersonDetector | gel_controller/room.py:171-182 | append-if-absent on the detector list |
| Rooms.Room.RemovePersonDetector | gel_controller/room.py:184-195 | remove-if-present on the detector list, after which the detector is no longer a member |
| PersonDetectors.FirstHeartRateKey | gel_controller/person_detector.py:115-119 | the key of an entity whose lower-cased name contains "heart rate", or none |
| PersonDetectors.FirstHeartRateKeyIsFirstMatch | gel_controller/person_detector.py:115-122 | there is no key iff no entity matches; otherwise the key is that of the first matching entity |
| PersonDetectors.PersonDetector.constructor | gel_controller/person_detector.py:21-47 | fields as given, with no room, no last heartbeat, no sensor key and no client |
| PersonDetectors.PersonDetector.NewWithDefaults | gel_controller/person_detector.py:25-27 | port 6053, no encryption key, timeout 10.0 |
| PersonDetectors.PersonDetector.SetRoom | gel_controller/person_detector.py:90-92 | the room becomes the given one |
| PersonDetectors.PersonDetector.Connect | gel_controller/person_detector.py:94-126 | a client is created; a reachable device gives success and, when some entity matches, the key of the first "heart rate" entity (otherwise the key is kept); an unreachable one fails and keeps the key |
| PersonDetectors.PersonDetector.SubscribeToStates | gel_controller/person_detector.py:137-151 | fails iff there is no client, i.e. before `connect` |
| PersonDetectors.PersonDetector.HandleStateChange | gel_controller/person_detector.py:153-167 | only a positive reading on the known sensor key records the heartbeat at `now` and marks the room occupied; any other key, or any update before the key is known, changes nothing |
| PersonDetectors.PersonDetector.OnHeartbeatDetected | gel_controller/person_detector.py:169-182 | a rate > 0 records `now` and sets an attached room to "occupied"; a rate ≤ 0 changes nothing |
| PersonDetectors.PersonDetector.OnHeartbeatTimeout | gel_controller/person_detector.py:184-195 | the last heartbeat is cleared and an attached room becomes "empty" |
| PersonDetectors.PersonDetector.CheckHeartbeatTimeout | gel_controller/person_detector.py:197-207 | fires iff a last time is set and now − last > timeout (strictly), with the effects of the timeout; otherwise nothing changes |
| PersonDetectors.Deliver | gel_controller/person_detector.py:169-195 | one heartbeat callback on a detector: a positive reading writes OCCUPIED, a timeout writes EMPTY, a non-positive reading writes nothing; the room stays valid and only its state changes |
| PersonDetectors.LastWriterWins | gel_controller/person_detector.py:169-195 | for any two callbacks, on any two detectors of one room, delivered in order: the room ends in the state the later one writes, or else the earlier one's, or else its old state |
| RoomControllers.AllTasksCount | gel_controller/room_controller.py:83-106 | the task list has one entry per camera and per detector over all rooms |
| RoomControllers.CameraTasksCount | gel_controller/room_controller.py:85-93 | a room's camera tasks name each of its cameras exactly as often as it is listed, and only for that room |
| RoomControllers.DetectorTasksCount | gel_controller/room_controller.py:97-105 | a room's detector tasks name each of its detectors exactly as often as it is listed |
| RoomControllers.OneTaskPerCamera | gel_controller/room_controller.py:83-93 | with duplicate-free rooms, a member camera gets exactly one task for its room |
| RoomControllers.NoTaskForAbsentRoom | gel_controller/room_controller.py:83-93 | a room the controller does not hold gets no camera task |
| RoomControllers.OneTaskPerDetectorMembership | gel_controller/room_controller.py:97-105 | a detector gets one task per room that holds it |
| RoomControllers.RoomController.constructor | gel_controller/room_controller.py:22-28 | no rooms, not running, no tasks |
| RoomControllers.RoomController.GetRooms | gel_controller/room_controller.py:30-37 | the current rooms, as a value the caller cannot change |
| RoomControllers.RoomController.IsRunning | gel_controller/room_controller.py:199-206 | the running flag |
| RoomControllers.RoomController.AddRoom | gel_controller/room_controller.py:39-50 | append-if-absent on the room list, which stays duplicate-free |
| RoomControllers.RoomController.RemoveRoom | gel_controller/room_controller.py:52-63 | remove-if-present on the room list, after which the room is no longer a member |
| RoomControllers.RoomController.Start | gel_controller/room_controller.py:65-108 | when running, nothing changes; otherwise running becomes true and the tasks are exactly one per camera and per detector of every room, in order |
| RoomControllers.RoomController.RegisterRoom | gel_controller/room_controller.py:83-106 | registering a room appends exactly its camera tasks and then its detector tasks |
| RoomControllers.RoomController.Shutdown | gel_controller/room_controller.py:176-197 | afterwards not running and no tasks; a controller that is not running is unchanged |
| RoomControllers.RoomController.CameraLoopIteration | gel_controller/room_controller.py:118-129 | while running, the camera takes the room rule's state and then emits "<name> active" iff its output is due, setting its last output time to `now` exactly then and keeping it otherwise; when not running nothing happens |
| RoomControllers.RoomController.DetectorLoopIteration | gel_controller/room_controller.py:167-168 | while running, the detector's timeout check fires iff the last heartbeat is older than the timeout, emptying the room; the room's id, name and member lists are unchanged |
| SpotTheDiff.ScanName | spot_the_diff.py:28-36 | whatever the scanner returns is well formed and renders back to the scanned name |
| SpotTheDiff.ScanRender | spot_the_diff.py:28-36 | every well-formed name (tag, room without '-', non-empty camera, timestamp, .jpg/.jpeg in any case, optional final line feed) is recognised with exactly its parts |
| SpotTheDiff.ParseBaselineName | spot_the_diff.py:53-55 | any parsed fields are a dash-free room, a non-empty camera name without a line feed, and a well-formed timestamp |
| SpotTheDiff.ParseCaptureName | spot_the_diff.py:48-50 | a parsed name has the tag "capture" or "baseline" in any case, and well-formed fields |
| SpotTheDiff.BaselineRoundTrip | spot_the_diff.py:28-31 | "baseline-r-c-ts.jpeg" parses back to (r, c, ts), even when the camera name holds dashes |
| SpotTheDiff.CaptureAcceptsBaselines | spot_the_diff.py:28-36 | the baseline pattern accepts a name iff the capture pattern accepts it with the tag "baseline" |
| SpotTheDiff.StrLtTransitive | spot_the_diff.py:116 | Python's string `<` is transitive, and irreflexive and total by the lemmas beside it |
| SpotTheDiff.BaselineCandidate | spot_the_diff.py:97-113 | a listed name yields a baseline iff it passes the glob, parses, and lies in the requested room; its location is the camera's entry in the location map, or none |
| SpotTheDiff.LatestOfProperties | spot_the_diff.py:106-117 | the newest-per-key table has one entry per (room, camera) key of the candidates, each with the greatest timestamp for its key, the earliest one winning ties |
| SpotTheDiff.SortByKey | spot_the_diff.py:119 | the result is sorted by (room, camera) and is a permutation of its input |
| SpotTheDiff.SelectLatestBaselines | spot_the_diff.py:93-119 | the result is a sorted permutation of the newest-per-key table: unique keys, every candidate key present, each the latest for its key, all in the requested room |
| SpotTheDiff.CollectLatest | spot_the_diff.py:97-117 | the loop computes the newest-per-key table of the candidates |
| SpotTheDiff.Offer | spot_the_diff.py:115-117 | one update of the table: replace the entry for the key when the candidate is strictly newer, append it when the key is new |
| SpotTheDiff.PickLatestChangeset | spot_the_diff.py:122-135 | none iff no listed capture parses and is in the room; otherwise a matching capture whose timestamp is maximal, the first such |
| SpotTheDiff.CaptureCandidate | spot_the_diff.py:123-129 | a listed name yields a (timestamp, file) pair iff it passes the glob, parses, and lies in the requested room; the pair holds its own timestamp and name |
| SpotTheDiff.CollectCaptures | spot_the_diff.py:123-130 | the loop collects the (timestamp, file) pairs of the matching captures, in order |
| SpotTheDiff.FirstMaxIndex | spot_the_diff.py:135 | `max` settles on the first entry with a greatest timestamp |
| SpotTheDiff.Suffix | spot_the_diff.py:59 | the suffix is empty or a dot-led tail of the name without another dot; it is empty iff no dot after the first character and before the last is the last dot |
| SpotTheDiff.MimeType | spot_the_diff.py:58-65 | "image/jpeg" iff the lower-cased suffix is ".jpg" or ".jpeg", "image/png" iff it is ".png", an error otherwise |
| SpotTheDiff.MimeOfExtension | spot_the_diff.py:58-65 | for a non-empty stem and a dot-led extension without another dot, the suffix is the extension and the type follows its lower-cased form as above |
| SpotTheDiff.ParsedNameIsJpeg | spot_the_diff.py:59-61 | every name the patterns accept without a final line feed is sent as image/jpeg |
| SpotTheDiff.NewlineNameIsRejected | spot_the_diff.py:59-65 | a name accepted only through `$` before a final line feed has an unsupported suffix and is an error |
| SpotTheDiff.LocationText | spot_the_diff.py:141 | the location, or "unknown" when it is missing or empty |
| SpotTheDiff.BaselineLines | spot_the_diff.py:139-145 | one line per baseline, in input order, line i for baseline i numbered i + 1 |
| SpotTheDiff.LineNumbering | spot_the_diff.py:140-144 | line i starts with the decimal number i + 1 followed by a dot |
| DeployEsp32.CutAtSlash | deploy_esp32_camera.py:34-35 | the text up to its first '/', or the whole text when it starts with '/' |
| DeployEsp32.NormalizeHostLike | deploy_esp32_camera.py:22-37 | none iff the value is missing or blank; the URL host name for a "://" text that has one; otherwise the stripped text cut at its first '/' |
| DeployEsp32.IsNetworkTarget | deploy_esp32_camera.py:40-58 | a "://" value is always a network target; any other network target normalises to a name; a normalised name under "/dev/" or starting with "COM" in any case is not one, and any other is one iff it is an IP address or contains a dot |
| DeployEsp32.NetworkTargetIgnoresHostname | deploy_esp32_camera.py:40-58 | the answer never depends on what `urlparse` returns |
| DeployEsp32.DevicePathIsLocal | deploy_esp32_camera.py:48-49 | a `/dev/` path is never a network target |
| DeployEsp32.ComPortIsLocal | deploy_esp32_camera.py:50-51 | a value whose stripped form starts with "COM" in any case is never a network target |
| DeployEsp32.ComExampleLocalIsLocal | deploy_esp32_camera.py:50-51 | "com.example.local" is treated as a serial port |
| DeployEsp32.IpCheckOnlyForDotlessNames | deploy_esp32_camera.py:52-58 | the IP-address check decides only for dotless names; a dotted name is a target whatever it says |
| DeployEsp32.AttemptLimit | deploy_esp32_camera.py:67 | max(1, retries) |
| DeployEsp32.RunCommandWithRetries | deploy_esp32_camera.py:66-76 | at most max(1, retries) attempts, stopping at the first success; all earlier attempts failed; a failure is reported only after the last allowed attempt |
| DeployEsp32.Safe | deploy_esp32_camera.py:94-96 | same length; every double quote becomes a single quote and every other character is kept in place |
| DeployEsp32.PayloadFields | deploy_esp32_camera.py:97-100 | splitting the payload at its quotes gives the keys in the order name, room_id, location, poll_interval, with the three escaped values |
| DeployEsp32.ConfigTarget | deploy_esp32_camera.py:208-215 | the normalised device IP when one is given; otherwise the normalised port iff it is a network target; otherwise none |
| DeployEsp32.Setting | deploy_esp32_camera.py:218-220 | the explicit value, then the device's, then the default |
| DeployEsp32.MergeConfig | deploy_esp32_camera.py:217-221 | fails iff no poll interval is given and the device's value is not a number; otherwise each value falls back from the argument to the device value to "cam1", "unknown", "unknown" and 10.0 |
| DeployEsp32.MergeIsStable | deploy_esp32_camera.py:217-223 | deploying again to a device that kept the posted values posts the same values |
| DeployEsp32.ExplicitOptionsWin | deploy_esp32_camera.py:218-221 | with every option given, the device's current values do not matter |
| Nmap.ReportIp | gel_controller/devices/pir.py:38 | the host of a report line has no spaces and no surrounding parenthesis |
| Nmap.MacOf | gel_controller/devices/pir.py:40 | a MAC, when present, is non-empty, space-free and lower-case |
| Nmap.ReportIpOfLine | gel_controller/devices/camera.py:23-24 | a report line ending in a host, bare or in parentheses, gives that host back |
| Nmap.MacOfLine | gel_controller/devices/pir.py:39-40 | "MAC Address: <mac> <vendor>" gives the lower-cased mac back |
| PirDevices.ScanLine | gel_controller/devices/pir.py:37-42 | a report line sets the pending address; a MAC line with a pending address emits (address, mac) and clears it; other lines change nothing |
| PirDevices.ScanSubnet | gel_controller/devices/pir.py:23-44 | the loop yields the pairs of the line scanner, or fails exactly where it fails |
| PirDevices.NoRecovery | gel_controller/devices/pir.py:36-44 | once the scan fails it stays failed |
| PirDevices.PairsNeedReports | gel_controller/devices/pir.py:37-42 | pairs plus the pending address never outnumber the report lines |
| PirDevices.ScanPairsWellFormed | gel_controller/devices/pir.py:36-44 | every pair has a non-empty address and a lower-case, space-free MAC |
| PirDevices.UnpairedReportIsDropped | gel_controller/devices/pir.py:37-43 | a report line with no MAC line before the next report line produces nothing |
| PirDevices.IsEspressif | gel_controller/devices/pir.py:47-51 | true iff the MAC has at least eight characters and its first eight are one of the four OUIs |
| PirDevices.HasPresenceKeyword | gel_controller/devices/pir.py:75-81 | true iff the name contains one of the seven keywords |
| PirDevices.AnyPresenceEntity | gel_controller/devices/pir.py:77-84 | true iff some entity is a binary sensor with a presence keyword in its lower-cased name |
| PirDevices.IsPresenceSensor | gel_controller/devices/pir.py:63-92 | true iff the listing succeeded and holds such an entity; a failed connection gives false |
| PirDevices.PlainSensorIsNotPresence | gel_controller/devices/pir.py:79 | an entity list none of whose type names contains "BinarySensor" is not a presence sensor |
| PirDevices.SensorInfoIsPlain | gel_controller/devices/pir.py:79 | an entity of type "SensorInfo" is not a presence entity |
| PirDevices.PersonBinarySensorIsPresence | gel_controller/devices/pir.py:79-82 | a binary sensor named "Person Detected" counts |
| PirDevices.ScannedSensor | gel_controller/devices/pir.py:146-153 | the name is "sensor-" followed by the MAC with its colons removed, so it has no colon; ip, ESPHome port and MAC are as scanned |
| Text.RemoveChar | gel_controller/devices/pir.py:147 | `replace(c, "")`: the result has no `c`, and every other character keeps its count |
| Text.RemoveCharAppend | gel_controller/devices/pir.py:147 | removing a character from a concatenation is the concatenation of the two removals, so order is kept |
| PirDevices.QualifiesFor | gel_controller/devices/pir.py:134-144 | the scan filter keeps exactly the Espressif devices with the API port open that confirm as presence sensors |
| PirDevices.DiscoverPresenceSensors | gel_controller/devices/pir.py:95-157 | the loop computes the known-then-scanned discovery list |
| PirDevices.AfterScanKeepsBase | gel_controller/devices/pir.py:126-157 | the scan only appends to the list, and never adds a second sensor with the same address |
| PirDevices.ScannedSource | gel_controller/devices/pir.py:128-154 | each appended sensor comes from a kept scanned device |
| PirDevices.DiscoverShape | gel_controller/devices/pir.py:101-157 | the confirmed known sensors come first and no two sensors share an address |
| PirDevices.DiscoveredSource | gel_controller/devices/pir.py:128-154 | every sensor after the known ones is a qualifying scanned device, named from its MAC |
| PirDevices.QualifyingDevicesAreListed | gel_controller/devices/pir.py:128-154 | every qualifying scanned device's address appears in the result |
| PirDevices.OfferKeepsIps | gel_controller/devices/pir.py:129-154 | offering a device never loses an address, and a kept device's address is present afterwards |
| PirDevices.IpsSnoc | gel_controller/devices/pir.py:122 | the seen-address set grows by exactly the new address |
| CameraDevices.ReportIps | gel_controller/devices/camera.py:21-27 | one address per report line: the addresses are exactly the report lines' hosts, in line order |
| CameraDevices.ReportIpsComplete | gel_controller/devices/camera.py:21-27 | every report line's host is among the addresses |
| CameraDevices.ScanSubnet | gel_controller/devices/camera.py:10-27 | the loop yields the addresses of the report lines in order |
| CameraDevices.ReportIpSource | gel_controller/devices/camera.py:22-25 | each address is the host of a report line |
| CameraDevices.Header | gel_controller/devices/camera.py:45-47 | a case-insensitive header lookup with a default |
| CameraDevices.IsGelCamera | gel_controller/devices/camera.py:39-55 | a camera iff the request succeeded and X-Device-Type is "gel-camera", then with its id and name; otherwise (false, none, none) |
| CameraDevices.Entry | gel_controller/devices/camera.py:72-79 | url is "http://ip:port" and stream url is that plus ":81/stream" |
| CameraDevices.FirstCamera | gel_controller/devices/camera.py:65-80 | none iff no port is open and a camera; otherwise the entry for the first such port |
| CameraDevices.Cameras | gel_controller/devices/camera.py:62-80 | at most one entry per scanned address (contents and order are stated by CamerasInOrder) |
| CameraDevices.CamerasInOrder | gel_controller/devices/camera.py:62-80 | the list is exactly the first camera found on ports 80 and 8080 of each address that has one, in scan order |
| CameraDevices.CamerasComplete | gel_controller/devices/camera.py:62-80 | every address that answers as a camera is listed |
| CameraDevices.FindCamera | gel_controller/devices/camera.py:65-80 | the port loop with `break` stops at the first camera port |
| CameraDevices.DiscoverCameras | gel_controller/devices/camera.py:58-82 | the loop computes the per-address entries in scan order |
| CameraDevices.CameraSource | gel_controller/devices/camera.py:62-80 | each entry is for a scanned address, at its first camera port of 80 and 8080 |
| CameraDevices.PortEightyWins | gel_controller/devices/camera.py:6 | a host answering on both ports is listed once, on port 80 |
| HeartbeatMonitor.FirstDevice | detect_person.py:37-49 | none iff no line names the device; otherwise field 3 of the first line that does |
| HeartbeatMonitor.PersonDetector.DiscoverDevice | detect_person.py:25-59 | the loop returns field 3 of the first matching line; a failed browser gives none |
| HeartbeatMonitor.TrailingAddress | detect_person.py:76 | the maximal trailing run of digits and dots, when whitespace precedes it |
| HeartbeatMonitor.ResolveDeviceIp | detect_person.py:74-83 | none for a non-zero return code; otherwise the trailing address of the stripped output |
| HeartbeatMonitor.ResolveRoundTrip | detect_person.py:74-80 | a resolver line "host ip" gives that ip back |
| HeartbeatMonitor.FirstRateFrom | detect_person.py:130 | the first reading after a label on the same line, lazily |
| HeartbeatMonitor.SearchFromLeftmost | detect_person.py:143 | the search reports the leftmost label that has a reading |
| HeartbeatMonitor.HeartRate | detect_person.py:130-145 | none iff the pattern matches nowhere; a match is a text of at least three digits and dots |
| HeartbeatMonitor.HeartRateIsLeftmost | detect_person.py:130-145 | a found reading comes from a match with no match to its left, and is the first reading after that match's label |
| HeartbeatMonitor.RatePositive | detect_person.py:145-149 | a reading is > 0 iff one of its digits is not 0 |
| HeartbeatMonitor.LabelledReadingMatches | detect_person.py:130 | a label followed on the same line by a reading matches |
| HeartbeatMonitor.HeartRateOfReading | detect_person.py:130-145 | "'Real-time heart rate' w.f bpm" reads as "w.f" |
| HeartbeatMonitor.StepState | detect_person.py:140-160 | the report time is untouched, and the state stays as it was or becomes "occupied" or "empty" |
| HeartbeatMonitor.Step | detect_person.py:140-164 | the state step, then a report iff now − last report ≥ interval, showing the status word and stamping the report clock |
| HeartbeatMonitor.Run | detect_person.py:136-164 | no more reports than lines; no lines gives no change |
| HeartbeatMonitor.RunKeepsKnownState | detect_person.py:140-160 | once known, the state stays "occupied" or "empty" |
| HeartbeatMonitor.RunReportsKnownWords | detect_person.py:102-108 | every report is "occupied", "empty" or "unknown" |
| HeartbeatMonitor.HeartbeatRefreshes | detect_person.py:143-150 | a heart-rate line sets the last heartbeat to now whatever the value, and a positive one marks occupied |
| HeartbeatMonitor.OccupiedOnlyOnPositiveReading | detect_person.py:148-150 | the state becomes "occupied" only on a positive reading |
| HeartbeatMonitor.ZeroReadingIsNotPositive | detect_person.py:149 | "0.0" and "00.000" are not positive |
| HeartbeatMonitor.HeartbeatTimeout | detect_person.py:153-157 | without a reading, an expired heartbeat empties the state and clears the time; an unexpired one changes nothing |
| HeartbeatMonitor.UnknownBecomesEmpty | detect_person.py:158-160 | before any heartbeat, an unknown state becomes "empty" |
| HeartbeatMonitor.ZeroReadingKeepsUnknown | detect_person.py:143-160 | a zero reading before any state is known leaves it unknown |
| HeartbeatMonitor.StatusWord | detect_person.py:102 | the state, or "unknown" when there is none or it is empty |
| HeartbeatMonitor.PersonDetector.constructor | detect_person.py:16-23 | the given pattern and file, no heartbeat, state or report, and timeout and report interval 10 |
| HeartbeatMonitor.PersonDetector.UpdateState | detect_person.py:95-97 | the state becomes the given value |
| HeartbeatMonitor.PersonDetector.ReportStatus | detect_person.py:99-109 | shows the status word and stamps the report time |
| HeartbeatMonitor.PersonDetector.StartMonitoring | detect_person.py:133 | the report clock starts at now |
| HeartbeatMonitor.PersonDetector.ObserveLine | detect_person.py:140-160 | the fields become the state step of the line |
| HeartbeatMonitor.PersonDetector.ProcessLine | detect_person.py:140-164 | the fields and report become one monitor step |
| HeartbeatMonitor.PersonDetector.MonitorHeartbeat | detect_person.py:111-164 | the fields and reports become the run of the monitor over the lines |

## Left out

- **Input and output.** The model does not run or model:
  - the subprocesses (nmap, avahi-browse, avahi-resolve, `esphome logs`, arduino-cli);
  - the ESPHome API client, `requests`/`urllib`, the socket port probes and the sqlite query;
  - the Anthropic request in `spot_the_diff.py`.

  Their results are parameters: lines of output, or functions (`portOpen`, `entitiesOf`, `headersOf`, `succeeds`). Printing and logging are left out.
- **Threads and waiting.** The threads, per-thread event loops, sleeps and join timeouts of the room controller are left out. Only the running flag and the task list are modelled, plus one iteration of each loop body.
- **Clocks.** `time.time()` and `datetime.now()` are parameters. `time_in_state`, `to_dict` and `__str__` are not modelled.
- **Floating point.** Intervals and times are exact reals. The following are left out:
  - the `%.1f` poll-interval text (`PayloadFields` takes it as text);
  - `float()` of a heart rate: a reading's sign is decided on its digits, so underflow of a reading with hundreds of leading zeros is not captured.
- HeartbeatMonitor.HeartRate: `\d` and `\s` are taken as ASCII digits and ASCII/Python whitespace; Unicode digits are not modelled.
- HeartbeatMonitor.TrailingAddress: `[\d.]` is taken as ASCII digits and dots; Unicode digits are not modelled.
- SpotTheDiff.IsTimestamp: `\d` is taken as ASCII digits; Unicode digits are not modelled.
- DeployEsp32.RunCommandWithRetries: an attempt either succeeds or fails with a command error, which is the only failure the source retries; any other exception ends the loop at once and is not modelled.
- DeployEsp32.MergeConfig: a device value is given as the text `str()` makes of it, so the rendering of non-string JSON values (numbers, lists, null) is not modelled; the device's poll interval is given as what `float()` makes of it, a number or a rejection, so which JSON values and strings `float()` accepts is not modelled.
- CameraDevices.Cameras: its own contract bounds only the length; the exact contents and scan order are the lemma `CamerasInOrder`, kept out of the function's contract so that the proofs unfolding `Cameras` stay small.
- Text.Lower: ASCII case mapping only; Unicode case folding is not modelled (it matters for `lower()` in the name checks and for `re.IGNORECASE`).
- **Library oracles.** `urlparse(...).hostname` and `ipaddress.ip_address` are opaque function parameters.
- **File contents.** `Path.glob` is a prefix-and-".jp" filter over a given list of names. Reading files and base64 encoding are left out.
- **Discovery from a room.** `Room.get_cameras` and `Room.get_person_detectors` trigger network discovery; the model uses the member lists directly. `RoomController.Start` iterates those lists.
- **Unmodelled operations.**
  - PersonDetector `disconnect` and the name/host/port getters and setters.
  - The ESPHome subscription callback mechanism.
  - `run_analysis`, `build_prompt`'s fixed text, and `read_props`/`post_props`'s HTTP round trip.
  - Every `main`/argparse entry point.
- **Unmodelled scripts.** `gel.py`, `discover_devices.py`, `capture_baseline.py`, `play_pir.py` and `detect_pir.py` are not part of this model.
- **Scan failures.** In `scan_subnet`, an index error from a malformed MAC line is modelled as a failed scan (`None`). Other exceptions (subprocess errors, timeouts) are not modelled.
- **HTTP headers.** Response headers are a lower-cased dictionary, so repeated headers are not joined as `requests` would.
- **Retry delay.** The sleep between upload retries is not modelled.
- **Sensor fields.** The `status` and `last_seen` fields of discovered sensors are not modelled. Known sensors are not deduplicated against each other, as in the source.
- **Resolver input.** The resolver is given only its output; the `<name>.local` host name is not modelled.
- **Tests.** Where the tests expect names or behaviour the code does not have (`initial_status`, `set_status`, a rejected OFFLINE→ACTIVE move, `camera._camera_state`, `get_cameras(False)`), the model follows the code.
