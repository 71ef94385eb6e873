/** The camera status state machine: six statuses, a fixed table of allowed
    moves, and an object that accepts or rejects a requested move while keeping
    an append-only history of (status, time entered). Clocks are not read:
    every operation that stamps a time takes `now`. */
module CameraStates {
  import opened Wrappers

  datatype CameraStatus = Inactive | Active | Recording | Error | Calibrating | Offline

  /** The allowed targets from each status, in the order the table lists them. */
  function Transitions(from: CameraStatus): seq<CameraStatus> {
    match from
    case Offline => [Calibrating, Inactive, Active]
    case Calibrating => [Inactive, Error]
    case Inactive => [Active, Offline, Error]
    case Active => [Recording, Inactive, Offline, Error]
    case Recording => [Active, Inactive, Offline, Error]
    case Error => [Calibrating, Offline, Inactive]
  }

  predicate CanTransition(from: CameraStatus, to: CameraStatus) {
    to in Transitions(from)
  }

  /** RECORDING is entered only from ACTIVE; ERROR is never entered straight
      from OFFLINE; no status has an edge to itself. */
  lemma TableShape(from: CameraStatus, to: CameraStatus)
    ensures CanTransition(from, Recording) <==> from == Active
    ensures !CanTransition(Offline, Error)
    ensures CanTransition(from, to) ==> from != to
  {
  }

  predicate IsOperationalStatus(s: CameraStatus) {
    s == Inactive || s == Active || s == Recording
  }

  datatype HistoryEntry = HistoryEntry(status: CameraStatus, at: real)

  /** Every consecutive pair of a history is an allowed edge of the table. */
  ghost predicate FollowsTable(h: seq<HistoryEntry>) {
    forall i :: 0 < i < |h| ==> CanTransition(h[i - 1].status, h[i].status)
  }

  ghost predicate TimesNonDecreasing(h: seq<HistoryEntry>) {
    forall i :: 0 < i < |h| ==> h[i - 1].at <= h[i].at
  }

  lemma AppendKeepsHistoryShape(h: seq<HistoryEntry>, e: HistoryEntry)
    requires |h| > 0 && FollowsTable(h) && CanTransition(h[|h| - 1].status, e.status)
    ensures FollowsTable(h + [e])
    ensures TimesNonDecreasing(h) && h[|h| - 1].at <= e.at ==> TimesNonDecreasing(h + [e])
  {
    var h' := h + [e];
    assert forall i :: 0 <= i < |h| ==> h'[i] == h[i];
  }

  /** Python's `h[-limit:]` for a non-zero `limit`, and `h.copy()` otherwise. */
  function HistoryTail(h: seq<HistoryEntry>, limit: Option<int>): (r: seq<HistoryEntry>)
    ensures limit.None? || limit == Some(0) ==> r == h
    ensures limit.Some? && limit.value > 0 ==>
      |r| == (if limit.value < |h| then limit.value else |h|) && r == h[|h| - |r|..]
    ensures limit.Some? && limit.value < 0 ==>
      r == h[(if -limit.value < |h| then -limit.value else |h|)..]
  {
    match limit
    case None => h
    case Some(k) =>
      if k == 0 then h
      else if k > 0 then (if k < |h| then h[|h| - k..] else h)
      else (if -k < |h| then h[-k..] else [])
  }

  class CameraState {
    var status: CameraStatus
    var enteredAt: real
    var history: seq<HistoryEntry>
    var errorMessage: Option<string>
    ghost const initialStatus: CameraStatus

    /** The history is never empty, starts at the initial status, ends at the
        current (status, entered_at), and only follows edges of the table. */
    ghost predicate Valid()
      reads this
    {
      && |history| > 0
      && history[0].status == initialStatus
      && history[|history| - 1] == HistoryEntry(status, enteredAt)
      && FollowsTable(history)
    }

    constructor (initial: CameraStatus, now: real)
      ensures Valid()
      ensures status == initial && enteredAt == now && errorMessage == None
      ensures history == [HistoryEntry(initial, now)]
    {
      status := initial;
      enteredAt := now;
      history := [HistoryEntry(initial, now)];
      errorMessage := None;
      initialStatus := initial;
    }

    /** The constructor called without a status: the camera starts OFFLINE. */
    constructor Default(now: real)
      ensures Valid()
      ensures status == Offline && enteredAt == now && errorMessage == None
      ensures history == [HistoryEntry(Offline, now)]
    {
      status := Offline;
      enteredAt := now;
      history := [HistoryEntry(Offline, now)];
      errorMessage := None;
      initialStatus := Offline;
    }

    /** Requests a move to `target`. A same-status request succeeds and changes
        nothing; a move outside the table fails and changes nothing; an allowed
        move sets the status and entry time, appends one history entry, and
        keeps `reason` as the error message exactly when the target is ERROR. */
    method TransitionTo(target: CameraStatus, reason: Option<string>, now: real) returns (ok: bool)
      requires Valid()
      modifies this
      ensures Valid()
      ensures ok <==> target == old(status) || CanTransition(old(status), target)
      ensures target == old(status) || !ok ==>
        status == old(status) && enteredAt == old(enteredAt)
        && history == old(history) && errorMessage == old(errorMessage)
      ensures target != old(status) && ok ==>
        status == target && enteredAt == now
        && history == old(history) + [HistoryEntry(target, now)]
        && errorMessage == (if target == Error then reason else None)
      ensures TimesNonDecreasing(old(history)) && old(enteredAt) <= now ==> TimesNonDecreasing(history)
    {
      if target == status {
        return true;
      }
      if target !in Transitions(status) {
        return false;
      }
      AppendKeepsHistoryShape(history, HistoryEntry(target, now));
      status := target;
      enteredAt := now;
      history := history + [HistoryEntry(target, now)];
      if target == Error {
        errorMessage := reason;
      } else {
        errorMessage := None;
      }
      ok := true;
    }

    /** INACTIVE, ACTIVE or RECORDING: neither in error nor offline. */
    function IsOperational(): (r: bool)
      reads this
      ensures r <==> status in {Inactive, Active, Recording}
    {
      IsOperationalStatus(status)
    }

    function CanRecord(): (r: bool)
      reads this
      ensures r <==> status == Active
      ensures r ==> IsOperational()
    {
      status == Active
    }

    function GetHistory(limit: Option<int>): (r: seq<HistoryEntry>)
      reads this
      ensures limit.None? || limit == Some(0) ==> r == history
      ensures limit.Some? && limit.value > 0 ==>
        |r| == (if limit.value < |history| then limit.value else |history|)
        && r == history[|history| - |r|..]
    {
      HistoryTail(history, limit)
    }
  }
}
