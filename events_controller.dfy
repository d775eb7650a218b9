/** The state-changing parts of EventsController: the seeding of an
    event's child collections in `new` and `edit`, and the construction
    of the branch event in `update`. */
module EventsController {
  import opened EventTypes
  import opened Associations
  import opened SeriesBranch

  /** An event record as held in memory by the controller. */
  class Event {
    var id: Option<int>
    var attributes: Attributes
    var notificationEvents: seq<AssociationRow>
    var repeatOns: seq<AssociationRow>

    /** Event.new attrs: an unsaved event with no child records. */
    constructor (attrs: Attributes)
      ensures id.None? && attributes == attrs
      ensures notificationEvents == [] && repeatOns == []
    {
      id := None;
      attributes := attrs;
      notificationEvents := [];
      repeatOns := [];
    }

    /** find_or_initialize_by on notification_events for every notification. */
    method SeedNotificationEvents(notifications: seq<int>)
      modifies this
      ensures notificationEvents == SeedAll(old(notificationEvents), notifications)
      ensures id == old(id) && attributes == old(attributes) && repeatOns == old(repeatOns)
    {
      var i := 0;
      while i < |notifications|
        invariant 0 <= i <= |notifications|
        invariant notificationEvents == SeedAll(old(notificationEvents), notifications[..i])
        invariant id == old(id) && attributes == old(attributes) && repeatOns == old(repeatOns)
      {
        assert notifications[..i + 1][..i] == notifications[..i];
        var found := FindOrInitialize(notificationEvents, notifications[i]);
        notificationEvents := found.1;
        i := i + 1;
      }
      assert notifications[..i] == notifications;
    }

    /** find_or_initialize_by on repeat_ons for every weekday. */
    method SeedRepeatOns(daysOfWeek: seq<int>)
      modifies this
      ensures repeatOns == SeedAll(old(repeatOns), daysOfWeek)
      ensures id == old(id) && attributes == old(attributes) &&
              notificationEvents == old(notificationEvents)
    {
      var i := 0;
      while i < |daysOfWeek|
        invariant 0 <= i <= |daysOfWeek|
        invariant repeatOns == SeedAll(old(repeatOns), daysOfWeek[..i])
        invariant id == old(id) && attributes == old(attributes) &&
                  notificationEvents == old(notificationEvents)
      {
        assert daysOfWeek[..i + 1][..i] == daysOfWeek[..i];
        var found := FindOrInitialize(repeatOns, daysOfWeek[i]);
        repeatOns := found.1;
        i := i + 1;
      }
      assert daysOfWeek[..i] == daysOfWeek;
    }

    /** The body of `edit`, shared with `new`: seed both collections and
        return @repeat_ons, the repeat_ons ordered by weekday. */
    method SeedForm(notifications: seq<int>, daysOfWeek: seq<int>) returns (repeatOnsView: seq<AssociationRow>)
      modifies this
      ensures notificationEvents == SeedAll(old(notificationEvents), notifications)
      ensures repeatOns == SeedAll(old(repeatOns), daysOfWeek)
      ensures repeatOnsView == SortByKey(repeatOns)
      ensures id == old(id) && attributes == old(attributes)
    {
      SeedNotificationEvents(notifications);
      SeedRepeatOns(daysOfWeek);
      repeatOnsView := SortByKey(repeatOns);
    }

    /** `update` on this event: merge the submitted attributes, build the
        branch event, hang it from the series root on this event's
        calendar, and hand the merged params to the exception service
        unless overlap_when_update? reports an overlap for the branch.
        `table` is the events table that event_parent is looked up in. */
    method Update(table: EventTable, submitted: Attributes, overlapWhenUpdate: Attributes -> bool)
      returns (merged: Attributes, branch: Event, calls: seq<ExceptionCall>)
      ensures merged == MergeUpdateParams(submitted, attributes.endRepeat)
      ensures fresh(branch) && branch.id.None?
      ensures branch.notificationEvents == [] && branch.repeatOns == []
      ensures branch.attributes == BranchAttributes(merged, table, id, attributes)
      ensures calls == ExceptionCalls(overlapWhenUpdate(branch.attributes), id, merged)
    {
      var endRepeat := if submitted.endRepeat.None? then attributes.endRepeat
                       else Some(submitted.endRepeat.value + 1);
      merged := submitted.(exceptionTime := submitted.startDate,
                           startRepeat := submitted.startDate,
                           endRepeat := endRepeat);
      branch := new Event(merged);
      if EventParent(table, attributes.parentId).None? {
        branch.attributes := branch.attributes.(parentId := id);
      } else {
        branch.attributes := branch.attributes.(parentId := attributes.parentId);
      }
      branch.attributes := branch.attributes.(calendarId := attributes.calendarId);
      if overlapWhenUpdate(branch.attributes) {
        calls := [];
      } else {
        calls := [ExceptionCall(id, merged)];
      }
    }
  }

  /** The fdata parameter of `new`: absent, decoded to the attributes
      found under "event" (blank when there are none), or not decodable,
      in which case the rescue leaves blank attributes as well. */
  datatype Fdata = NoFdata | Decoded(attributes: Attributes) | Undecodable

  /** `new`: the event loaded for the request, replaced by one built from
      fdata when fdata is given, then seeded as in `edit`. */
  method New(loaded: Event, fdata: Fdata, notifications: seq<int>, daysOfWeek: seq<int>)
    returns (event: Event, repeatOnsView: seq<AssociationRow>)
    modifies loaded
    ensures fdata.NoFdata? ==> event == loaded
    ensures !fdata.NoFdata? ==>
              fresh(event) && event.id.None? && unchanged(loaded) &&
              event.attributes == (if fdata.Decoded? then fdata.attributes else BlankAttributes)
    ensures fdata.NoFdata? ==>
              event.id == old(loaded.id) && event.attributes == old(loaded.attributes)
    ensures event.notificationEvents ==
              SeedAll(if fdata.NoFdata? then old(loaded.notificationEvents) else [], notifications)
    ensures event.repeatOns ==
              SeedAll(if fdata.NoFdata? then old(loaded.repeatOns) else [], daysOfWeek)
    ensures repeatOnsView == SortByKey(event.repeatOns)
  {
    if fdata.NoFdata? {
      event := loaded;
    } else {
      event := new Event(if fdata.Decoded? then fdata.attributes else BlankAttributes);
    }
    repeatOnsView := event.SeedForm(notifications, daysOfWeek);
  }
}
