/** Vocabulary shared by every part of the events controller model.
    Instants and dates are both whole day numbers: time zones, the
    time of day and string formatting are not modelled. */
module EventTypes {

  datatype Option<+T> = None | Some(value: T)

  /** A calendar day, counted from an arbitrary epoch. */
  type Day = int

  /** Event#repeat_type; None on an event that does not repeat. */
  datatype RepeatType = Daily | Weekly | Monthly | Yearly

  /** The scalar attributes of an event: what is submitted under
      params[:event] and what an event record holds. */
  datatype Attributes = Attributes(
    startDate: Option<Day>,
    endDate: Option<Day>,
    repeatType: Option<RepeatType>,
    startRepeat: Option<Day>,
    endRepeat: Option<Day>,
    exceptionTime: Option<Day>,
    calendarId: Option<int>,
    parentId: Option<int>)

  /** The attributes of `Event.new` with nothing submitted. */
  const BlankAttributes := Attributes(None, None, None, None, None, None, None, None)
}
