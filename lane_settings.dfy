/** The status drop-down of src/components/Lane/LaneSettings.tsx: the value shown for a
    lane's data, and the lane update made when another value is selected. The drop-down
    offers "none", "completion" and the id of every configured status emoji. */
module LaneSettings {
  import opened KanbanTypes

  /** The drop-down value shown for a lane: a set status id wins over the completion flag. */
  function CurrentStatus(d: LaneData): (r: string)
    ensures r != ""
    ensures Truthy(d.shouldApplyStatus) ==> r == d.shouldApplyStatus.value
    ensures !Truthy(d.shouldApplyStatus) && d.shouldMarkItemsComplete ==> r == "completion"
    ensures !Truthy(d.shouldApplyStatus) && !d.shouldMarkItemsComplete ==> r == "none"
  {
    if Truthy(d.shouldApplyStatus) then d.shouldApplyStatus.value
    else if d.shouldMarkItemsComplete then "completion"
    else "none"
  }

  /** At most one of the two regimes is switched on. */
  predicate SingleRegime(d: LaneData) {
    !(d.shouldMarkItemsComplete && d.shouldApplyStatus.Some?)
  }

  /** The lane passed to `updateLane` when `value` is selected. */
  function OnStatusChange(lane: Lane, value: string): (r: Lane)
    ensures SingleRegime(r.data)
    ensures r.data.shouldMarkItemsComplete <==> value == "completion"
    ensures r.data.shouldApplyStatus.Some? <==> value != "none" && value != "completion"
    ensures r.data.shouldApplyStatus.Some? ==> r.data.shouldApplyStatus.value == value
    ensures r.id == lane.id && r.children == lane.children
    ensures r.data.title == lane.data.title && r.data.maxItems == lane.data.maxItems
    ensures r.data.sorted == lane.data.sorted
  {
    var shouldMarkComplete := value == "completion";
    var status := if value == "none" || value == "completion" then None else Some(value);
    lane.(data := lane.data.(shouldMarkItemsComplete := shouldMarkComplete, shouldApplyStatus := status))
  }

  /** Selecting any non-empty value makes the drop-down show that value. */
  lemma SelectionIsShown(lane: Lane, value: string)
    requires value != ""
    ensures CurrentStatus(OnStatusChange(lane, value).data) == value
  {
  }

  /** Selecting the empty value stores an empty status id, which reads as "none". */
  lemma EmptySelectionShowsNone(lane: Lane)
    ensures OnStatusChange(lane, "").data.shouldApplyStatus == Some("")
    ensures CurrentStatus(OnStatusChange(lane, "").data) == "none"
  {
  }

  /** Re-selecting the shown value keeps a lane whose data is in the normal form the
      drop-down produces; a lane with both regimes loses the completion flag. */
  lemma {:induction false} ReselectingShownValue(lane: Lane)
    requires lane.data.shouldApplyStatus.Some? ==>
      Truthy(lane.data.shouldApplyStatus) && lane.data.shouldApplyStatus.value != "none"
      && lane.data.shouldApplyStatus.value != "completion"
    ensures SingleRegime(lane.data) ==> OnStatusChange(lane, CurrentStatus(lane.data)) == lane
    ensures !SingleRegime(lane.data) ==>
      OnStatusChange(lane, CurrentStatus(lane.data)) == lane.(data := lane.data.(shouldMarkItemsComplete := false))
  {
    var d := lane.data;
    if d.shouldApplyStatus.Some? {
      assert CurrentStatus(d) == d.shouldApplyStatus.value;
    } else if d.shouldMarkItemsComplete {
      assert CurrentStatus(d) == "completion";
    } else {
      assert CurrentStatus(d) == "none";
    }
  }
}
