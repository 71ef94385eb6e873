/** The process-wide controller: the list of rooms, the running flag, and the
    bookkeeping of one monitoring task per camera and one per detector that
    `start` registers and `shutdown` clears. The threads themselves, their
    event loops and sleeps are not modelled; a task is the record of what the
    thread was started for. */
module RoomControllers {
  import opened Wrappers
  import opened Membership
  import opened Cameras
  import opened Rooms
  import opened PersonDetectors

  datatype Task = CameraTask(camera: Camera, room: Room) | DetectorTask(detector: object)

  function CameraTasks(cs: seq<Camera>, r: Room): (ts: seq<Task>)
    ensures |ts| == |cs| && forall i :: 0 <= i < |cs| ==> ts[i] == CameraTask(cs[i], r)
  {
    seq(|cs|, i requires 0 <= i < |cs| => CameraTask(cs[i], r))
  }

  function DetectorTasks(ds: seq<object>): (ts: seq<Task>)
    ensures |ts| == |ds| && forall i :: 0 <= i < |ds| ==> ts[i] == DetectorTask(ds[i])
  {
    seq(|ds|, i requires 0 <= i < |ds| => DetectorTask(ds[i]))
  }

  /** The tasks `start` launches for one room: its cameras, then its detectors. */
  function RoomTasks(r: Room): seq<Task>
    reads r
  {
    CameraTasks(r.cameras, r) + DetectorTasks(r.personDetectors)
  }

  /** The tasks `start` launches for a list of rooms, room by room. */
  function AllTasks(rs: seq<Room>): seq<Task>
    reads set r | r in rs
  {
    if rs == [] then [] else AllTasks(rs[..|rs| - 1]) + RoomTasks(rs[|rs| - 1])
  }

  /** Cameras plus detectors over all rooms. */
  function MemberCount(rs: seq<Room>): nat
    reads set r | r in rs
  {
    if rs == [] then 0
    else MemberCount(rs[..|rs| - 1]) + |rs[|rs| - 1].cameras| + |rs[|rs| - 1].personDetectors|
  }

  /** Number of rooms in the list whose detector list holds `d`. */
  function RoomsHolding(rs: seq<Room>, d: object): nat
    reads set r | r in rs
  {
    if rs == [] then 0
    else RoomsHolding(rs[..|rs| - 1], d) + (if d in rs[|rs| - 1].personDetectors then 1 else 0)
  }

  /** `start` registers exactly one task per camera and per detector membership. */
  lemma {:induction false} AllTasksCount(rs: seq<Room>)
    ensures |AllTasks(rs)| == MemberCount(rs)
  {
    if rs != [] {
      AllTasksCount(rs[..|rs| - 1]);
    }
  }

  lemma {:induction false} CameraTasksCount(cs: seq<Camera>, r: Room, c: Camera, r': Room)
    ensures multiset(CameraTasks(cs, r))[CameraTask(c, r')] == if r == r' then multiset(cs)[c] else 0
  {
    if cs != [] {
      var n := |cs| - 1;
      assert cs == cs[..n] + [cs[n]];
      assert CameraTasks(cs, r) == CameraTasks(cs[..n], r) + [CameraTask(cs[n], r)];
      CameraTasksCount(cs[..n], r, c, r');
    }
  }

  lemma {:induction false} DetectorTasksCount(ds: seq<object>, d: object)
    ensures multiset(DetectorTasks(ds))[DetectorTask(d)] == multiset(ds)[d]
  {
    if ds != [] {
      var n := |ds| - 1;
      assert ds == ds[..n] + [ds[n]];
      assert DetectorTasks(ds) == DetectorTasks(ds[..n]) + [DetectorTask(ds[n])];
      DetectorTasksCount(ds[..n], d);
    }
  }

  /** With a duplicate-free room list whose rooms hold duplicate-free camera
      lists, every camera of every room gets exactly one task. */
  lemma {:induction false} OneTaskPerCamera(rs: seq<Room>, i: nat, c: Camera)
    requires NoDuplicates(rs) && i < |rs| && c in rs[i].cameras
    requires forall k :: 0 <= k < |rs| ==> rs[k].Valid()
    ensures multiset(AllTasks(rs))[CameraTask(c, rs[i])] == 1
  {
    var n := |rs| - 1;
    var front := rs[..n];
    var last := rs[n];
    assert AllTasks(rs) == AllTasks(front) + RoomTasks(last);
    CameraTasksCount(last.cameras, last, c, rs[i]);
    assert multiset(DetectorTasks(last.personDetectors))[CameraTask(c, rs[i])] == 0;
    if i == n {
      NoDuplicatesCountsOnce(last.cameras, c);
      NoTaskForAbsentRoom(front, c, last);
    } else {
      assert NoDuplicates(front) by {
        forall a, b | 0 <= a < b < |front| ensures front[a] != front[b] { assert front[a] == rs[a] && front[b] == rs[b]; }
      }
      assert rs[i] == front[i] && rs[i] != last;
      OneTaskPerCamera(front, i, c);
    }
  }

  lemma {:induction false} NoTaskForAbsentRoom(rs: seq<Room>, c: Camera, r: Room)
    requires r !in rs
    ensures multiset(AllTasks(rs))[CameraTask(c, r)] == 0
  {
    if rs != [] {
      var n := |rs| - 1;
      assert rs[n] != r;
      CameraTasksCount(rs[n].cameras, rs[n], c, r);
      assert multiset(DetectorTasks(rs[n].personDetectors))[CameraTask(c, r)] == 0;
      assert forall k :: 0 <= k < n ==> rs[..n][k] == rs[k];
      NoTaskForAbsentRoom(rs[..n], c, r);
    }
  }

  /** A detector gets one task for each room (of duplicate-free detector lists) that holds it. */
  lemma {:induction false} OneTaskPerDetectorMembership(rs: seq<Room>, d: object)
    requires forall k :: 0 <= k < |rs| ==> rs[k].Valid()
    ensures multiset(AllTasks(rs))[DetectorTask(d)] == RoomsHolding(rs, d)
  {
    if rs != [] {
      var n := |rs| - 1;
      var last := rs[n];
      assert forall k :: 0 <= k < n ==> rs[..n][k] == rs[k];
      OneTaskPerDetectorMembership(rs[..n], d);
      DetectorTasksCount(last.personDetectors, d);
      NoDuplicatesCountsOnce(last.personDetectors, d);
      assert multiset(CameraTasks(last.cameras, last))[DetectorTask(d)] == 0;
    }
  }

  class RoomController {
    var rooms: seq<Room>
    var running: bool
    var tasks: seq<Task>

    /** Rooms are registered once; no task outlives a shutdown. */
    ghost predicate Valid()
      reads this
    {
      NoDuplicates(rooms) && (!running ==> tasks == [])
    }

    /** A new controller has no rooms, no tasks and is not running. */
    constructor ()
      ensures Valid() && rooms == [] && !running && tasks == []
    {
      rooms := [];
      running := false;
      tasks := [];
    }

    /** The room list, handed out as a value: later changes to the
        controller's list are not seen through it. */
    function GetRooms(): (r: seq<Room>)
      reads this
      ensures r == rooms
    {
      rooms
    }

    function IsRunning(): (r: bool)
      reads this
      ensures r == running
    {
      running
    }

    method AddRoom(room: Room)
      requires Valid()
      modifies this`rooms
      ensures Valid()
      ensures rooms == AppendIfAbsent(old(rooms), room)
    {
      if room !in rooms {
        rooms := rooms + [room];
      }
    }

    method RemoveRoom(room: Room)
      requires Valid()
      modifies this`rooms
      ensures Valid()
      ensures rooms == RemoveFirst(old(rooms), room)
      ensures room !in rooms
    {
      RemoveFirstNoDuplicates(rooms, room);
      if room in rooms {
        rooms := RemoveFirst(rooms, room);
      }
    }

    /** Starting a stopped controller sets the flag and registers one task per
        camera and per detector, room by room; starting a running one changes
        nothing. */
    method Start()
      requires Valid()
      modifies this`running, this`tasks
      ensures Valid() && running
      ensures old(running) ==> tasks == old(tasks)
      ensures !old(running) ==> tasks == AllTasks(rooms)
    {
      if running {
        return;
      }
      running := true;
      var i := 0;
      while i < |rooms|
        invariant 0 <= i <= |rooms| && running
        invariant tasks == AllTasks(rooms[..i])
      {
        RegisterRoom(rooms[i]);
        assert rooms[..i + 1][..i] == rooms[..i];
        i := i + 1;
      }
      assert rooms[..i] == rooms;
    }

    /** The part of `start` that launches one room's tasks: a task per camera,
        then a task per detector, appended to the task list. */
    method RegisterRoom(room: Room)
      modifies this`tasks
      ensures tasks == old(tasks) + RoomTasks(room)
    {
      var j := 0;
      while j < |room.cameras|
        invariant 0 <= j <= |room.cameras|
        invariant tasks == old(tasks) + CameraTasks(room.cameras[..j], room)
      {
        assert room.cameras[..j + 1] == room.cameras[..j] + [room.cameras[j]];
        tasks := tasks + [CameraTask(room.cameras[j], room)];
        j := j + 1;
      }
      assert room.cameras[..j] == room.cameras;
      var k := 0;
      while k < |room.personDetectors|
        invariant 0 <= k <= |room.personDetectors|
        invariant tasks == old(tasks) + CameraTasks(room.cameras, room) + DetectorTasks(room.personDetectors[..k])
      {
        assert room.personDetectors[..k + 1] == room.personDetectors[..k] + [room.personDetectors[k]];
        tasks := tasks + [DetectorTask(room.personDetectors[k])];
        k := k + 1;
      }
      assert room.personDetectors[..k] == room.personDetectors;
    }

    /** Stopping a running controller clears the flag and the task list;
        stopping a stopped one changes nothing. */
    method Shutdown()
      requires Valid()
      modifies this`running, this`tasks
      ensures Valid() && !running && tasks == []
    {
      if !running {
        return;
      }
      running := false;
      tasks := [];
    }

    /** One pass of a camera's loop: only while the controller runs, the camera
        polls its room, and an active camera then gets a chance to print its
        status line. */
    method CameraLoopIteration(camera: Camera, room: Room, now: real) returns (ran: bool, line: Option<string>)
      requires camera.Valid()
      modifies camera`state, camera`lastOutputTime
      ensures camera.Valid()
      ensures ran == running
      ensures !ran ==> camera.state == old(camera.state) && camera.lastOutputTime == old(camera.lastOutputTime)
      ensures ran ==> camera.state == PolicyState(room.state, old(camera.state))
      ensures line.Some? <==> ran && OutputDue(now, old(camera.lastOutputTime), camera.outputInterval, camera.state)
      ensures line.Some? ==> line.value == camera.name + " active" && camera.lastOutputTime == now
      ensures line.None? ==> camera.lastOutputTime == old(camera.lastOutputTime)
    {
      line := None;
      ran := running;
      if !running {
        return;
      }
      camera.CheckRoomAndUpdateState(room.state);
      if camera.state == ActiveState {
        line := camera.OutputStatus(now);
      }
    }
  
    /** One pass of a detector's loop after it connected and subscribed: only
        while the controller runs, the detector checks its heartbeat timeout. */
    method DetectorLoopIteration(detector: PersonDetector, now: real) returns (ran: bool, fired: bool)
      requires detector.room != null ==> detector.room.Valid()
      modifies detector`lastHeartbeatTime, detector.room
      ensures ran == running
      ensures detector.room != null ==> detector.room.Valid()
      ensures fired ==> ran
      ensures ran ==> (fired <==> old(detector.lastHeartbeatTime).Some?
                                  && now - old(detector.lastHeartbeatTime).value > detector.heartbeatTimeout)
      ensures fired ==> detector.lastHeartbeatTime == None
      ensures fired && detector.room != null ==> detector.room.state == Empty
      ensures !fired ==> detector.lastHeartbeatTime == old(detector.lastHeartbeatTime)
      ensures !fired && detector.room != null ==> detector.room.state == old(detector.room.state)
      ensures detector.room != null ==>
                unchanged(detector.room`roomId, detector.room`name, detector.room`cameras, detector.room`personDetectors)
    {
      ran := running;
      fired := false;
      if !running {
        return;
      }
      fired := detector.CheckHeartbeatTimeout(now);
    }
  }
}
