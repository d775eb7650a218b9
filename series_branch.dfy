/** The pure part of `update`: the merge of the submitted attributes,
    the series root the branch event hangs from, and the call made to
    the exception service. */
module SeriesBranch {
  import opened EventTypes

  /** A row of the events table, as far as series lineage goes. */
  datatype StoredEvent = StoredEvent(parentId: Option<int>)

  /** The events table, keyed by id. */
  type EventTable = map<int, StoredEvent>

  /** Event#event_parent: the record that `parentId` refers to, when
      there is one in the table. */
  function EventParent(table: EventTable, parentId: Option<int>): (r: Option<int>)
    ensures r.Some? <==> parentId.Some? && parentId.value in table
    ensures r.Some? ==> r == parentId
  {
    if parentId.Some? && parentId.value in table then parentId else None
  }

  /** A series root: a stored event with no parent record. */
  ghost predicate IsSeriesRoot(table: EventTable, id: int)
  {
    id in table && EventParent(table, table[id].parentId).None?
  }

  /** Lineage is at most one level deep: the parent of an event is
      itself a series root. */
  ghost predicate OneLevelLineage(table: EventTable)
  {
    forall c :: c in table && EventParent(table, table[c].parentId).Some? ==>
      IsSeriesRoot(table, table[c].parentId.value)
  }

  /** The parent_id given to the branch event: the edited event's own id
      when it has no parent record, else the id of that parent. */
  function BranchParentId(table: EventTable, eventId: Option<int>, eventParentId: Option<int>): (r: Option<int>)
    ensures EventParent(table, eventParentId).None? ==> r == eventId
    ensures EventParent(table, eventParentId).Some? ==> r == eventParentId && r.value in table
  {
    match EventParent(table, eventParentId)
    case None => eventId
    case Some(p) => Some(p)
  }

  /** With one-level lineage, the branch of a stored event hangs from a
      series root: one hop is always enough. */
  lemma BranchParentIsSeriesRoot(table: EventTable, eventId: int)
    requires OneLevelLineage(table)
    requires eventId in table
    ensures BranchParentId(table, Some(eventId), table[eventId].parentId).Some?
    ensures IsSeriesRoot(table, BranchParentId(table, Some(eventId), table[eventId].parentId).value)
  {
  }

  /** Storing the branch keeps lineage one level deep, provided no stored
      row already refers to the id the branch is stored under. */
  lemma StoringBranchKeepsOneLevelLineage(table: EventTable, eventId: int, branchId: int)
    requires OneLevelLineage(table)
    requires eventId in table && branchId !in table
    requires forall c :: c in table ==> table[c].parentId != Some(branchId)
    ensures OneLevelLineage(
              table[branchId := StoredEvent(BranchParentId(table, Some(eventId), table[eventId].parentId))])
  {
  }

  /** params[:event] after the merge at the top of `update`: the branch
      starts, and records its exception, at the submitted start_date; its
      end_repeat is the edited event's own when none is submitted and the
      day after the submitted one otherwise. */
  function MergeUpdateParams(submitted: Attributes, originalEndRepeat: Option<Day>): (r: Attributes)
    ensures r.exceptionTime == submitted.startDate && r.startRepeat == submitted.startDate
    ensures submitted.endRepeat.None? ==> r.endRepeat == originalEndRepeat
    ensures submitted.endRepeat.Some? ==> r.endRepeat == Some(submitted.endRepeat.value + 1)
    // no other attribute is touched
    ensures r.(exceptionTime := submitted.exceptionTime, startRepeat := submitted.startRepeat,
               endRepeat := submitted.endRepeat) == submitted
    // a submitted window that ends on or after its start stays non-empty
    ensures submitted.startDate.Some? && submitted.endRepeat.Some? &&
            submitted.startDate.value <= submitted.endRepeat.value ==>
              r.startRepeat.value < r.endRepeat.value
  {
    submitted.(
      exceptionTime := submitted.startDate,
      startRepeat := submitted.startDate,
      endRepeat := if submitted.endRepeat.None? then originalEndRepeat
                   else Some(submitted.endRepeat.value + 1))
  }

  /** The attributes of the branch event built in `update`: the merged
      params, hung from the series root, on the edited event's calendar. */
  function BranchAttributes(merged: Attributes, table: EventTable, eventId: Option<int>,
                            original: Attributes): (r: Attributes)
    ensures r.parentId == BranchParentId(table, eventId, original.parentId)
    ensures r.calendarId == original.calendarId
    ensures r.(parentId := merged.parentId, calendarId := merged.calendarId) == merged
  {
    merged.(parentId := BranchParentId(table, eventId, original.parentId),
            calendarId := original.calendarId)
  }

  /** One call of EventExceptionService#update_event_exception: the
      edited event (by id) and the params handed to it. */
  datatype ExceptionCall = ExceptionCall(originalId: Option<int>, params: Attributes)

  /** The calls `update` makes to the exception service once the branch
      event has been checked for overlap. */
  function ExceptionCalls(overlapReported: bool, eventId: Option<int>, merged: Attributes): (r: seq<ExceptionCall>)
    ensures overlapReported ==> r == []
    ensures !overlapReported ==> |r| == 1 && r[0].originalId == eventId && r[0].params == merged
  {
    if overlapReported then [] else [ExceptionCall(eventId, merged)]
  }
}
