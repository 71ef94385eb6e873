/** A room: the single holder of occupancy ("occupied" or "empty") that
    detectors write and cameras read, plus duplicate-free lists of the cameras
    and person detectors that belong to it. Detectors are kept by identity
    only; the room never looks inside them. */
module Rooms {
  import opened Wrappers
  import opened Membership
  import opened Cameras

  const Occupied: string := "occupied"
  const Empty: string := "empty"

  predicate IsRoomState(s: string) {
    s == Occupied || s == Empty
  }

  class Room {
    var roomId: string
    var name: string
    var state: string
    var cameras: seq<Camera>
    var personDetectors: seq<object>

    ghost predicate Valid()
      reads this
    {
      IsRoomState(state) && NoDuplicates(cameras) && NoDuplicates(personDetectors)
    }

    constructor (roomId: string, name: string, initialState: string)
      requires IsRoomState(initialState)
      ensures Valid()
      ensures this.roomId == roomId && this.name == name && state == initialState
      ensures cameras == [] && personDetectors == []
    {
      this.roomId := roomId;
      this.name := name;
      this.state := initialState;
      this.cameras := [];
      this.personDetectors := [];
    }

    /** `Room(room_id, name, initial_state)`: any state other than "occupied"
        or "empty" raises, so no room is made. */
    static method New(roomId: string, name: string, initialState: string) returns (r: Option<Room>)
      ensures r.None? <==> !IsRoomState(initialState)
      ensures r.Some? ==> fresh(r.value) && r.value.Valid() && r.value.state == initialState
      ensures r.Some? ==> r.value.roomId == roomId && r.value.name == name
      ensures r.Some? ==> r.value.cameras == [] && r.value.personDetectors == []
    {
      if !IsRoomState(initialState) {
        return None;
      }
      var room := new Room(roomId, name, initialState);
      return Some(room);
    }

    /** `Room(room_id, name)`: the default initial state is "empty". */
    static method NewWithDefaults(roomId: string, name: string) returns (r: Room)
      ensures fresh(r) && r.Valid() && r.state == Empty
      ensures r.roomId == roomId && r.name == name && r.cameras == [] && r.personDetectors == []
    {
      r := new Room(roomId, name, Empty);
    }

    /** The `state` setter: an invalid value raises and changes nothing; a
        valid one becomes the state (assigning the current state again is a
        no-op). */
    method SetState(s: string) returns (ok: bool)
      modifies this`state
      ensures ok <==> IsRoomState(s)
      ensures state == if ok then s else old(state)
      ensures old(Valid()) ==> Valid()
    {
      if !IsRoomState(s) {
        return false;
      }
      state := s;
      ok := true;
    }

    method AddCamera(camera: Camera)
      requires Valid()
      modifies this`cameras
      ensures Valid()
      ensures cameras == AppendIfAbsent(old(cameras), camera)
    {
      if camera !in cameras {
        cameras := cameras + [camera];
      }
    }

    method RemoveCamera(camera: Camera)
      requires Valid()
      modifies this`cameras
      ensures Valid()
      ensures cameras == RemoveFirst(old(cameras), camera)
      ensures camera !in cameras
    {
      RemoveFirstNoDuplicates(cameras, camera);
      if camera in cameras {
        cameras := RemoveFirst(cameras, camera);
      }
    }

    /** Administrative override: a member camera is forced to "inactive"; a
        camera that is not a member is left alone. Only that camera's state
        can change. */
    method SetCameraInactive(camera: Camera)
      modifies camera`state
      ensures camera in cameras ==> camera.state == InactiveState
      ensures camera !in cameras ==> camera.state == old(camera.state)
    {
      if camera in cameras {
        var _ := camera.SetState(InactiveState);
      }
    }

    method AddPersonDetector(detector: object)
      requires Valid()
      modifies this`personDetectors
      ensures Valid()
      ensures personDetectors == AppendIfAbsent(old(personDetectors), detector)
    {
      if detector !in personDetectors {
        personDetectors := personDetectors + [detector];
      }
    }

    method RemovePersonDetector(detector: object)
      requires Valid()
      modifies this`personDetectors
      ensures Valid()
      ensures personDetectors == RemoveFirst(old(personDetectors), detector)
      ensures detector !in personDetectors
    {
      RemoveFirstNoDuplicates(personDetectors, detector);
      if detector in personDetectors {
        personDetectors := RemoveFirst(personDetectors, detector);
      }
    }
  }
}
