/**
 * The admin events list: switching an event on or off, and the two labels
 * that show an event's state.
 */
module EventsList {
  import opened Seqs
  import opened Schema

  /** The list entry after the toggle: only the matching event gets the new flag. */
  function ToggledEntry(e: EventRow, eventId: Uuid, currentStatus: bool): (t: EventRow)
    ensures t.(isActive := e.isActive) == e
    ensures e.id == eventId ==> t.isActive == !currentStatus
    ensures e.id != eventId ==> t == e
  {
    if e.id == eventId then e.(isActive := !currentStatus) else e
  }

  /**
   * `toggleEventStatus(eventId, currentStatus)`: the backend is asked to set
   * `is_active` to `!currentStatus`; when it reports an error (`updateFailed`)
   * the local list stays as it was, otherwise every entry with that id gets
   * the new flag and every other field and entry is kept, in the same order.
   */
  function ToggleEventStatus(events: seq<EventRow>, eventId: Uuid, currentStatus: bool, updateFailed: bool)
    : (r: seq<EventRow>)
    ensures |r| == |events|
    ensures updateFailed ==> r == events
    ensures forall i :: 0 <= i < |events| ==>
      r[i].isActive == (if !updateFailed && events[i].id == eventId then !currentStatus else events[i].isActive)
    ensures forall i :: 0 <= i < |events| ==> r[i].(isActive := events[i].isActive) == events[i]
  {
    if updateFailed then events
    else Map(events, (e: EventRow) => ToggledEntry(e, eventId, currentStatus))
  }

  /** A toggle for an id no listed event has leaves the list as it was. */
  lemma UnknownIdUnchanged(events: seq<EventRow>, eventId: Uuid, currentStatus: bool, updateFailed: bool)
    requires forall i :: 0 <= i < |events| ==> events[i].id != eventId
    ensures ToggleEventStatus(events, eventId, currentStatus, updateFailed) == events
  {
    var r := ToggleEventStatus(events, eventId, currentStatus, updateFailed);
    forall i | 0 <= i < |events|
      ensures r[i] == events[i]
    {
      assert r[i].isActive == events[i].isActive;
      assert r[i] == r[i].(isActive := events[i].isActive);
    }
  }

  /**
   * The button passes the event's own flag. When every entry with the id shows
   * `currentStatus`, the first toggle makes them show `!currentStatus`, and a
   * second toggle passing that flag gives back the original list.
   */
  lemma ToggleTwiceRestores(events: seq<EventRow>, eventId: Uuid, currentStatus: bool)
    requires forall i :: 0 <= i < |events| && events[i].id == eventId ==> events[i].isActive == currentStatus
    ensures var once := ToggleEventStatus(events, eventId, currentStatus, false);
      (forall i :: 0 <= i < |once| && once[i].id == eventId ==> once[i].isActive == !currentStatus) &&
      ToggleEventStatus(once, eventId, !currentStatus, false) == events
  {
    var once := ToggleEventStatus(events, eventId, currentStatus, false);
    var twice := ToggleEventStatus(once, eventId, !currentStatus, false);
    forall k | 0 <= k < |events|
      ensures once[k].id == events[k].id && twice[k] == events[k]
    {
      assert once[k].(isActive := events[k].isActive) == events[k];
      assert twice[k].(isActive := once[k].isActive) == once[k];
    }
  }

  /** The status badge. */
  function BadgeText(isActive: bool): (t: string)
    ensures t == "Active" <==> isActive
    ensures !isActive ==> t == "Inactive"
  {
    if isActive then "Active" else "Inactive"
  }

  /** The tooltip of the toggle button: it names the action the click will take. */
  function ToggleButtonTitle(isActive: bool): (t: string)
    ensures t == "Deactivate Event" <==> BadgeText(isActive) == "Active"
    ensures !isActive ==> t == "Activate Event"
  {
    if isActive then "Deactivate Event" else "Activate Event"
  }
}
