/** The create path: how the result of the overlap detector is turned
    into @time_overlap (time_overlap_for_create) and whether `create`
    then tries to save the event. */
module OverlapPolicy {
  import opened EventTypes

  /** The value left in @time_overlap: nil, Settings.full_overlap, or
      the day before the first overlapping occurrence. */
  datatype TimeOverlap = NoOverlap | FullOverlap | TruncateAt(endRepeat: Day)

  /** What time_overlap_for_create leaves behind: @time_overlap, and
      @event_params, which is only assigned on the truncating branch. */
  datatype CreateDecision = CreateDecision(timeOverlap: TimeOverlap, eventParams: Option<Attributes>)

  /** time_overlap_for_create for an event built from `params`.
      `overlap` is what EventOverlap reports about that event: None when
      overlap? is false, Some(d) when it is true and time_overlap falls
      on day d. */
  function TimeOverlapForCreate(params: Attributes, overlap: Option<Day>): (r: CreateDecision)
    ensures r.timeOverlap.NoOverlap? <==> overlap.None?
    ensures r.timeOverlap.FullOverlap? <==>
              overlap.Some? && (params.startRepeat.None? || params.startRepeat.value >= overlap.value)
    ensures r.timeOverlap.TruncateAt? <==>
              overlap.Some? && params.startRepeat.Some? && params.startRepeat.value < overlap.value
    // the off-by-one: the series is cut to the day before the overlap,
    // which is never before the start of the repetition window
    ensures r.timeOverlap.TruncateAt? ==>
              r.timeOverlap.endRepeat + 1 == overlap.value &&
              params.startRepeat.value <= r.timeOverlap.endRepeat < overlap.value
    // the copied params differ from the submitted ones in end_repeat only
    ensures r.eventParams.Some? <==> r.timeOverlap.TruncateAt?
    ensures r.eventParams.Some? ==>
              r.eventParams.value.endRepeat == Some(r.timeOverlap.endRepeat) &&
              r.eventParams.value.(endRepeat := params.endRepeat) == params
  {
    match overlap
    case None => CreateDecision(NoOverlap, None)
    case Some(d) =>
      if params.startRepeat.None? || params.startRepeat.value >= d then
        CreateDecision(FullOverlap, None)
      else
        CreateDecision(TruncateAt(d - 1), Some(params.(endRepeat := Some(d - 1))))
  }

  /** The response `create` gives: redirect to the root (created), back
      to the new-event form (the save failed), or back to the referrer
      (an overlap was found and nothing was saved). */
  datatype CreateResponse = Created | NotCreated | OverlapRejected

  datatype CreateResult = CreateResult(decision: CreateDecision, saveAttempted: bool, response: CreateResponse)

  /** `create` after the attendee accounts exist. `saveSucceeds` is what
      @event.save would answer. */
  function Create(params: Attributes, overlap: Option<Day>, saveSucceeds: bool): (r: CreateResult)
    ensures r.decision == TimeOverlapForCreate(params, overlap)
    ensures r.saveAttempted <==> r.decision.timeOverlap.NoOverlap?
    ensures r.response == Created <==> overlap.None? && saveSucceeds
    ensures r.response == NotCreated <==> overlap.None? && !saveSucceeds
    ensures r.response == OverlapRejected <==>
              r.decision.timeOverlap.FullOverlap? || r.decision.timeOverlap.TruncateAt?
  {
    var decision := TimeOverlapForCreate(params, overlap);
    if decision.timeOverlap == NoOverlap then
      CreateResult(decision, true, if saveSucceeds then Created else NotCreated)
    else
      CreateResult(decision, false, OverlapRejected)
  }
}
