/** The camera object the controller drives: a two-valued string state that
    follows the room's occupancy on every poll, and a rate-limited status line.
    This camera does not use the CameraState machine. */
module Cameras {
  import opened Wrappers

  const ActiveState: string := "active"
  const InactiveState: string := "inactive"
  const DefaultPollInterval: real := 10.0
  const DefaultOutputInterval: real := 10.0

  predicate IsCameraState(s: string) {
    s == ActiveState || s == InactiveState
  }

  /** The state a poll leaves the camera in: "active" for an empty room,
      "inactive" for an occupied room, and the current state otherwise. */
  function PolicyState(roomState: string, current: string): (r: string)
    ensures roomState == "empty" ==> r == ActiveState
    ensures roomState == "occupied" ==> r == InactiveState
    ensures roomState != "empty" && roomState != "occupied" ==> r == current
  {
    if roomState == "empty" then ActiveState
    else if roomState == "occupied" then InactiveState
    else current
  }

  /** Polling twice against the same room state is the same as polling once,
      and a camera only ends a poll active when the room is empty or it was
      already active. */
  lemma PolicyIdempotentAndPrivate(roomState: string, current: string)
    ensures PolicyState(roomState, PolicyState(roomState, current)) == PolicyState(roomState, current)
    ensures PolicyState(roomState, current) == ActiveState ==>
      roomState == "empty" || (current == ActiveState && roomState != "occupied")
  {
  }

  /** A status line is due when the output interval has elapsed and the camera is active. */
  predicate OutputDue(now: real, lastOutputTime: real, outputInterval: real, state: string) {
    now - lastOutputTime >= outputInterval && state == ActiveState
  }

  class Camera {
    var name: string
    var roomId: string
    var state: string
    var pollInterval: real
    var outputInterval: real
    var lastOutputTime: real

    ghost predicate Valid()
      reads this
    {
      IsCameraState(state)
    }

    constructor (name: string, roomId: string, initialState: string, pollInterval: real, outputInterval: real)
      requires IsCameraState(initialState)
      ensures Valid()
      ensures this.name == name && this.roomId == roomId && state == initialState
      ensures this.pollInterval == pollInterval && this.outputInterval == outputInterval
      ensures lastOutputTime == 0.0
    {
      this.name := name;
      this.roomId := roomId;
      this.state := initialState;
      this.pollInterval := pollInterval;
      this.outputInterval := outputInterval;
      this.lastOutputTime := 0.0;
    }

    /** `Camera(name, room_id, initial_state, ...)`: an invalid initial state
        raises, so no camera is made. */
    static method New(name: string, roomId: string, initialState: string, pollInterval: real, outputInterval: real)
      returns (r: Option<Camera>)
      ensures r.None? <==> !IsCameraState(initialState)
      ensures r.Some? ==> fresh(r.value) && r.value.Valid() && r.value.state == initialState
      ensures r.Some? ==> r.value.name == name && r.value.roomId == roomId
      ensures r.Some? ==> r.value.pollInterval == pollInterval && r.value.outputInterval == outputInterval
      ensures r.Some? ==> r.value.lastOutputTime == 0.0
    {
      if !IsCameraState(initialState) {
        return None;
      }
      var c := new Camera(name, roomId, initialState, pollInterval, outputInterval);
      return Some(c);
    }

    /** `Camera(name, room_id)` with every default: inactive, 10 s poll and output intervals. */
    static method NewWithDefaults(name: string, roomId: string) returns (c: Camera)
      ensures fresh(c) && c.Valid() && c.name == name && c.roomId == roomId
      ensures c.state == InactiveState && c.pollInterval == 10.0 && c.outputInterval == 10.0
      ensures c.lastOutputTime == 0.0
    {
      c := new Camera(name, roomId, InactiveState, DefaultPollInterval, DefaultOutputInterval);
    }

    /** Accepts only "active" and "inactive"; anything else raises and leaves
        the state as it was. */
    method SetState(s: string) returns (ok: bool)
      modifies this`state
      ensures ok <==> IsCameraState(s)
      ensures state == if ok then s else old(state)
    {
      if !IsCameraState(s) {
        return false;
      }
      state := s;
      ok := true;
    }

    /** One poll of the room's state (`room.get_state()`). */
    method CheckRoomAndUpdateState(roomState: string)
      requires Valid()
      modifies this`state
      ensures Valid()
      ensures state == PolicyState(roomState, old(state))
    {
      if roomState == "empty" {
        var _ := SetState(ActiveState);
      } else if roomState == "occupied" {
        var _ := SetState(InactiveState);
      }
    }

    /** Emits "<name> active" and records `now` only when the camera is active
        and the output interval has elapsed; otherwise nothing changes. The
        time-of-day prefix of the printed line is not modelled. */
    method OutputStatus(now: real) returns (line: Option<string>)
      modifies this`lastOutputTime
      ensures line.Some? <==> OutputDue(now, old(lastOutputTime), outputInterval, state)
      ensures line.Some? ==> line.value == name + " active" && lastOutputTime == now
      ensures line.None? ==> lastOutputTime == old(lastOutputTime)
    {
      line := None;
      if now - lastOutputTime >= outputInterval {
        if state == ActiveState {
          line := Some(name + " active");
          lastOutputTime := now;
        }
      }
    }
  }
}
