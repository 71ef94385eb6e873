/** The ESPHome presence detector: turns heart-rate readings into writes on
    the room it is attached to, and declares the room empty once readings have
    stopped for longer than the heartbeat timeout. The device session is an
    oracle: `Connect` is handed whether the session came up and the entity
    list the device reports; a state update arrives as (key, reading). */
module PersonDetectors {
  import opened Wrappers
  import opened Text
  import opened Rooms

  const DefaultPort: int := 6053
  const DefaultHeartbeatTimeout: real := 10.0
  const HeartRateLabel: string := "heart rate"

  /** One entity the device lists; `name` is None for an entity without a name attribute. */
  datatype EntityInfo = EntityInfo(name: Option<string>, key: int)

  predicate IsHeartRateEntity(e: EntityInfo) {
    e.name.Some? && Contains(Lower(e.name.value), HeartRateLabel)
  }

  /** The key of the first entity whose lower-cased name contains "heart rate". */
  function FirstHeartRateKey(entities: seq<EntityInfo>): (r: Option<int>)
  {
    if entities == [] then None
    else if IsHeartRateEntity(entities[0]) then Some(entities[0].key)
    else FirstHeartRateKey(entities[1..])
  }

  /** The selected key belongs to the first matching entity; no match, no key. */
  lemma {:induction false} FirstHeartRateKeyIsFirstMatch(entities: seq<EntityInfo>)
    ensures FirstHeartRateKey(entities).None? <==> forall i :: 0 <= i < |entities| ==> !IsHeartRateEntity(entities[i])
    ensures FirstHeartRateKey(entities).Some? ==>
      exists i :: 0 <= i < |entities| && IsHeartRateEntity(entities[i])
        && entities[i].key == FirstHeartRateKey(entities).value
        && forall j :: 0 <= j < i ==> !IsHeartRateEntity(entities[j])
  {
    if entities != [] && !IsHeartRateEntity(entities[0]) {
      var t := entities[1..];
      FirstHeartRateKeyIsFirstMatch(t);
      assert forall i :: 0 < i < |entities| ==> entities[i] == t[i - 1];
      if FirstHeartRateKey(t).Some? {
        var i :| 0 <= i < |t| && IsHeartRateEntity(t[i]) && t[i].key == FirstHeartRateKey(t).value
          && forall j :: 0 <= j < i ==> !IsHeartRateEntity(t[j]);
        assert entities[i + 1] == t[i];
      }
    }
  }

  class PersonDetector {
    var name: string
    var host: string
    var port: int
    var encryptionKey: Option<string>
    var heartbeatTimeout: real
    var room: Room?
    var lastHeartbeatTime: Option<real>
    var hasClient: bool
    var subscribed: bool
    var heartbeatSensorKey: Option<int>

    constructor (name: string, host: string, port: int, encryptionKey: Option<string>, heartbeatTimeout: real)
      ensures this.name == name && this.host == host && this.port == port
      ensures this.encryptionKey == encryptionKey && this.heartbeatTimeout == heartbeatTimeout
      ensures room == null && lastHeartbeatTime == None && heartbeatSensorKey == None
      ensures !hasClient && !subscribed
    {
      this.name := name;
      this.host := host;
      this.port := port;
      this.encryptionKey := encryptionKey;
      this.heartbeatTimeout := heartbeatTimeout;
      this.room := null;
      this.lastHeartbeatTime := None;
      this.hasClient := false;
      this.subscribed := false;
      this.heartbeatSensorKey := None;
    }

    /** `PersonDetector(name, host)`: port 6053, no key, 10 s timeout. */
    static method NewWithDefaults(name: string, host: string) returns (d: PersonDetector)
      ensures fresh(d) && d.name == name && d.host == host
      ensures d.port == 6053 && d.encryptionKey == None && d.heartbeatTimeout == 10.0
      ensures d.room == null && d.lastHeartbeatTime == None && d.heartbeatSensorKey == None
    {
      d := new PersonDetector(name, host, DefaultPort, None, DefaultHeartbeatTimeout);
    }

    method SetRoom(r: Room)
      modifies this`room
      ensures room == r
    {
      room := r;
    }

    /** Creates the client, then connects; a failed connection is reported
        (the exception propagates) with the client already created. On
        success the entity list is scanned and the first entity whose name
        contains "heart rate" gives the sensor key; with no match the key is
        left as it was. */
    method Connect(reachable: bool, entities: seq<EntityInfo>) returns (ok: bool)
      modifies this`hasClient, this`heartbeatSensorKey
      ensures hasClient && ok == reachable
      ensures heartbeatSensorKey ==
        if ok && FirstHeartRateKey(entities).Some? then FirstHeartRateKey(entities) else old(heartbeatSensorKey)
    {
      hasClient := true;
      if !reachable {
        return false;
      }
      var i := 0;
      while i < |entities|
        invariant 0 <= i <= |entities|
        invariant FirstHeartRateKey(entities) == FirstHeartRateKey(entities[i..])
        invariant heartbeatSensorKey == old(heartbeatSensorKey)
      {
        assert entities[i..][1..] == entities[i + 1..];
        if IsHeartRateEntity(entities[i]) {
          heartbeatSensorKey := Some(entities[i].key);
          break;
        }
        i := i + 1;
      }
      ok := true;
    }

    /** Subscribing before a client exists is an error and changes nothing. */
    method SubscribeToStates() returns (ok: bool)
      modifies this`subscribed
      ensures ok <==> hasClient
      ensures subscribed == (old(subscribed) || ok)
    {
      if !hasClient {
        return false;
      }
      subscribed := true;
      ok := true;
    }

    /** A positive reading stamps the heartbeat time and marks the attached
        room occupied; any other reading changes nothing. */
    method OnHeartbeatDetected(heartRate: real, now: real)
      requires room != null ==> room.Valid()
      modifies this`lastHeartbeatTime, room
      ensures room != null ==> room.Valid()
      ensures heartRate > 0.0 ==> lastHeartbeatTime == Some(now)
      ensures heartRate > 0.0 && room != null ==> room.state == Occupied
      ensures heartRate <= 0.0 ==> lastHeartbeatTime == old(lastHeartbeatTime)
      ensures room != null && heartRate <= 0.0 ==> room.state == old(room.state)
      ensures room != null ==> unchanged(room`roomId, room`name, room`cameras, room`personDetectors)
    {
      if heartRate > 0.0 {
        lastHeartbeatTime := Some(now);
        if room != null {
          var _ := room.SetState(Occupied);
        }
      }
    }

    /** Clears the heartbeat time and marks the attached room empty. */
    method OnHeartbeatTimeout()
      requires room != null ==> room.Valid()
      modifies this`lastHeartbeatTime, room
      ensures room != null ==> room.Valid()
      ensures lastHeartbeatTime == None
      ensures room != null ==> room.state == Empty
      ensures room != null ==> unchanged(room`roomId, room`name, room`cameras, room`personDetectors)
    {
      lastHeartbeatTime := None;
      if room != null {
        var _ := room.SetState(Empty);
      }
    }

    /** The periodic self-check: fires the timeout only when a heartbeat has
        been seen and strictly more than the timeout has passed since. */
    method CheckHeartbeatTimeout(now: real) returns (fired: bool)
      requires room != null ==> room.Valid()
      modifies this`lastHeartbeatTime, room
      ensures room != null ==> room.Valid()
      ensures fired <==> old(lastHeartbeatTime).Some? && now - old(lastHeartbeatTime).value > heartbeatTimeout
      ensures fired ==> lastHeartbeatTime == None && (room != null ==> room.state == Empty)
      ensures !fired ==> lastHeartbeatTime == old(lastHeartbeatTime)
      ensures !fired && room != null ==> room.state == old(room.state)
      ensures room != null ==> unchanged(room`roomId, room`name, room`cameras, room`personDetectors)
    {
      fired := false;
      if lastHeartbeatTime.Some? {
        if now - lastHeartbeatTime.value > heartbeatTimeout {
          OnHeartbeatTimeout();
          fired := true;
        }
      }
    }

    /** The subscribed callback: only an update for the discovered sensor key
        is acted on, and only a positive reading counts as a heartbeat. */
    method HandleStateChange(key: int, reading: real, now: real)
      requires room != null ==> room.Valid()
      modifies this`lastHeartbeatTime, room
      ensures room != null ==> room.Valid()
      ensures heartbeatSensorKey == Some(key) && reading > 0.0 ==> lastHeartbeatTime == Some(now)
      ensures heartbeatSensorKey == Some(key) && reading > 0.0 && room != null ==> room.state == Occupied
      ensures !(heartbeatSensorKey == Some(key) && reading > 0.0) ==> lastHeartbeatTime == old(lastHeartbeatTime)
      ensures !(heartbeatSensorKey == Some(key) && reading > 0.0) && room != null ==> room.state == old(room.state)
      ensures room != null ==> unchanged(room`roomId, room`name, room`cameras, room`personDetectors)
    {
      if heartbeatSensorKey.Some? && key == heartbeatSensorKey.value {
        if reading > 0.0 {
          OnHeartbeatDetected(reading, now);
        }
      }
    }
  }

  /** A callback a detector can receive: a reading, or its heartbeat
      timeout firing. */
  datatype Callback = Reading(rate: real) | TimeoutFired

  /** The room state a callback writes, if it writes one. */
  function Written(c: Callback): Option<string> {
    match c
    case Reading(rate) => if rate > 0.0 then Some(Occupied) else None
    case TimeoutFired => Some(Empty)
  }

  /** Delivers one callback to a detector. */
  method Deliver(d: PersonDetector, c: Callback, now: real)
    requires d.room != null ==> d.room.Valid()
    modifies d`lastHeartbeatTime, d.room
    ensures d.room != null ==> d.room.Valid() && d.room.state == Written(c).GetOr(old(d.room.state))
    ensures d.room != null ==> unchanged(d.room`roomId, d.room`name, d.room`cameras, d.room`personDetectors)
  {
    match c
    case Reading(rate) => d.OnHeartbeatDetected(rate, now);
    case TimeoutFired => d.OnHeartbeatTimeout();
  }

  /** Several detectors on one room write the room's single state directly,
      so the last write wins: after two callbacks, on the same detector or on
      two different ones, in either order, the room holds what the later one
      wrote, else what the earlier one wrote, else what it held before. */
  method LastWriterWins(d1: PersonDetector, c1: Callback, t1: real, d2: PersonDetector, c2: Callback, t2: real, room: Room)
    requires d1.room == room && d2.room == room && room.Valid()
    modifies d1`lastHeartbeatTime, d2`lastHeartbeatTime, room
    ensures room.Valid()
    ensures room.state == Written(c2).GetOr(Written(c1).GetOr(old(room.state)))
  {
    Deliver(d1, c1, t1);
    Deliver(d2, c2, t2);
  }
}
