# Events controller decision logic

A model of the decision logic in `EventsController` of a calendar
application, the part that sits between overlap detection and
persistence:

- **create**: `time_overlap_for_create` turns the overlap detector's
  answer into one of three outcomes (no overlap, full overlap, truncate
  to the day before the overlap), and `create` saves only when there is
  no overlap;
- **update**: the submitted attributes are merged (`exception_time` and
  `start_repeat` from the submitted `start_date`, `end_repeat` kept or
  moved one day on), a branch event is built that hangs from the series
  root on the edited event's calendar, and the exception service is
  called only when no overlap is reported for the branch;
- **new / edit**: one repeat_on per weekday and one notification_event
  per notification are found or initialized, and the repeat_ons are
  shown ordered by weekday;
- **valid_params?**: a non-blank repeat_on with a weekly repeat type.

Instants and dates are whole day numbers (`EventTypes.Day`). The
collaborators whose code is not part of this model are inputs:

- the answer of `EventOverlap` is an `Option<Day>`: `None` when
  `overlap?` is false, `Some(d)` when it is true and `time_overlap`
  falls on day `d`;
- `overlap_when_update?` is a function parameter from the branch
  event's attributes to a boolean;
- the result of `@event.save` is a boolean parameter;
- the events table that `event_parent` is read from is a map from id
  to the stored parent id;
- the calls made to `EventExceptionService` are returned as a sequence
  of calls rather than performed.

Files: `types.dfy` (shared vocabulary), `overlap_policy.dfy` (create),
`series_branch.dfy` (the pure part of update), `associations.dfy`
(find-or-initialize and sorting of child collections),
`params_check.dfy` (valid_params?), `events_controller.dfy` (the
`Event` class and the state-changing actions `new`, `edit` and
`update`).

Two choices of the code shape the model:

- The full-overlap test is `start_repeat >= overlap day`. The opposite
  direction, `overlap day >= start_repeat`, would leave truncation only
  for overlaps before the series starts.
- A truncating outcome is not applied by `create`. The code copies the
  params with the shortened `end_repeat` into `@event_params`. It then
  skips the save, exactly as for a full overlap.

## Model

| member | source | states |
|---|---|---|
| `OverlapPolicy.TimeOverlapForCreate` | app/controllers/events_controller.rb:134-146 | no overlap exactly when `overlap?` is false; full overlap exactly when there is one and `start_repeat` is unset or on or after the overlap day; truncation exactly when `start_repeat` is before the overlap day, to the day before it, which lies in `[start_repeat, overlap)`; the copied params exist only on truncation and differ from the submitted ones in `end_repeat` alone |
| `OverlapPolicy.Create` | app/controllers/events_controller.rb:31-60 | a save is attempted exactly when the outcome is no overlap; created exactly when there is no overlap and the save succeeds, sent back to the form when the save fails, and rejected exactly on a full or truncating overlap |
| `SeriesBranch.EventParent` | app/controllers/events_controller.rb:82-85 | the parent is found exactly when the parent id is set and present in the table, and is that id |
| `SeriesBranch.BranchParentId` | app/controllers/events_controller.rb:82-86 | the branch's parent is the edited event's id when it has no parent record, otherwise the id of that parent record, which is in the table |
| `SeriesBranch.BranchParentIsSeriesRoot` | app/controllers/events_controller.rb:82-86 | for a stored event in a table whose lineage is one level deep, the branch's parent is set and is a series root (a stored event with no parent record) |
| `SeriesBranch.MergeUpdateParams` | app/controllers/events_controller.rb:75-79 | `exception_time` and `start_repeat` equal the submitted `start_date`; `end_repeat` is the edited event's when none is submitted, else the submitted day plus one; no other attribute changes; a submitted window ending on or after its start yields `start_repeat < end_repeat` |
| `SeriesBranch.StoringBranchKeepsOneLevelLineage` | app/controllers/events_controller.rb:82-87 | storing the branch under an id no stored row refers to keeps lineage one level deep, so the next edit of the branch again reaches the root in one hop |
| `SeriesBranch.BranchAttributes` | app/controllers/events_controller.rb:81-87 | the branch carries the merged params except that `parent_id` is the series root chosen above and `calendar_id` is the edited event's |
| `SeriesBranch.ExceptionCalls` | app/controllers/events_controller.rb:89-98 | no call when an overlap is reported; otherwise exactly one call, with the edited event and the merged params |
| `Associations.FindByKey` | app/controllers/events_controller.rb:24 | the position found holds the key and no earlier row does; nothing is found exactly when no row holds the key |
| `Associations.FindOrInitialize` | app/controllers/events_controller.rb:24 | the row returned has the key; when a row with the key exists the collection is unchanged and the row is one of it; otherwise a new unsaved row is appended |
| `Associations.SeedAllCount` | app/controllers/events_controller.rb:23-25 | after seeding, a seeded key that had no row has exactly one, and every other key keeps its count |
| `Associations.SeedAllKeepsExisting` | app/controllers/events_controller.rb:23-25 | the existing rows are kept unchanged as a prefix, and every appended row is unsaved and carries a seeded key |
| `Associations.SeedAllUnique` | app/controllers/events_controller.rb:23-25 | when the existing rows have no duplicate key, after seeding there is still none and every seeded key occurs exactly once |
| `Associations.InsertByKey` | app/controllers/events_controller.rb:26 | inserting into an ascending collection keeps it ascending and adds exactly the inserted row |
| `Associations.SortByKey` | app/controllers/events_controller.rb:26 | the result is ascending by key and a permutation of the input |
| `Associations.SortByKeyCount` | app/controllers/events_controller.rb:26 | sorting keeps the number of rows of every key |
| `Associations.SeededViewOnePerKey` | app/controllers/events_controller.rb:23-26 | when the stored repeat_ons have no duplicate weekday, the displayed repeat_ons have exactly one row per weekday and are strictly ascending by weekday |
| `ParamsCheck.AllSpace` | app/controllers/events_controller.rb:131 | a string is blank exactly when all its characters are spaces |
| `ParamsCheck.Present` | app/controllers/events_controller.rb:131 | nil is never present; a string is present exactly when it has a non-space character; a list exactly when it is non-empty |
| `ParamsCheck.ValidParams` | app/controllers/events_controller.rb:130-132 | true exactly when the repeat type is weekly and repeat_on is a string with a non-space character or a non-empty list |
| `EventsController.Event.constructor` | app/controllers/events_controller.rb:81 | `Event.new attrs` is unsaved and holds the scalar attributes `attrs`; nested child attributes are not modelled (see Left out) |
| `EventsController.Event.SeedNotificationEvents` | app/controllers/events_controller.rb:19-21 | the notification_events become the seeding of the old ones by every notification; nothing else changes |
| `EventsController.Event.SeedRepeatOns` | app/controllers/events_controller.rb:23-25 | the repeat_ons become the seeding of the old ones by every weekday; nothing else changes |
| `EventsController.Event.SeedForm` | app/controllers/events_controller.rb:63-72 | both collections are seeded, id and attributes are unchanged, and the returned view is the repeat_ons sorted by weekday |
| `EventsController.Event.Update` | app/controllers/events_controller.rb:74-100 | the params are merged as `MergeUpdateParams` says; the branch is a fresh unsaved event with the scalar attributes `BranchAttributes` gives (nested child records not modelled, see Left out); the exception service is called as `ExceptionCalls` says for the overlap reported on the branch; the edited event is not changed |
| `EventsController.New` | app/controllers/events_controller.rb:13-27 | without fdata the loaded event is seeded; with fdata a fresh event holding the decoded attributes (blank when they cannot be decoded) is seeded and the loaded one is left unchanged; the view is the sorted repeat_ons |

## Left out

- The internals of `EventOverlap`, `TimeOverlapForUpdate#overlap_when_update?` and `EventExceptionService` are not part of this model. They are inputs or recorded calls, so the model does not say which dates overlap or how the original series is truncated.
- `OverlapPolicy.TimeOverlapForCreate`: assumes `time_overlap` has a value whenever `overlap?` is true. With a nil `time_overlap` and a set `start_repeat`, the Ruby code would raise on `to_date`. With `start_repeat` nil the `||` short-circuits and the result is full overlap, as in the model.
- Authentication, authorization and the calendar permission check in the before-filters are left out. They are trusted collaborators.
- The notifications sent after a successful create (Chatwork, desktop, email, Fullcalendar job), flash messages, `respond_to` formats, redirects and views are left out. `OverlapPolicy.Create` only names which response is chosen.
- `create_user_when_add_attendee` is left out. It provisions user accounts through the database and token generation.
- `destroy` is left out. It only relays the ORM's result.
- The `load_*` queries, and the Base64/JSON decoding of `fdata`, are left out. `EventsController.New` receives the decoded attributes, or the fact that decoding failed.
- `EventsController.Event.constructor`: `Event.new` also builds child records from nested `*_attributes` in the params (the repeat_ons and notification_events the form posts back, attendees). The model passes only scalar attributes, so the constructed event starts with no children.
- `EventsController.Event.Update`: the nested child records of the submitted params are not modelled. The branch built from them has no repeat_ons or notification_events, and `overlap_when_update?` is given the branch's scalar attributes only, not its weekdays.
- `SeriesBranch.MergeUpdateParams`: a submitted `end_repeat` is either absent or a day. The source tests `nil?`, so an empty or unparsable `end_repeat` string is not nil. `to_date` then yields nil or raises, and `nil + 1.days` raises. That error path of `update` is not modelled.
- `EventsController.New`: an event built from fdata starts with no child records. Nested child attributes inside fdata are not modelled.
- `Associations.FindOrInitialize`: searches the in-memory collection, including rows built earlier in the same loop. The ORM queries the stored rows instead. The two agree because `DaysOfWeek.all` and `Notification.all` have distinct ids.
- `Associations.SortByKey`: a stable insertion sort. For rows with equal weekday ids the order of Ruby's `sort` is unspecified. When the ids are unique the two orders agree.
- `ParamsCheck.AllSpace`: only the ASCII space characters count as spaces. Ruby's `blank?` also treats Unicode space characters as blank.
- Time zones, the time of day, and the string form produced by `to_s` are left out. Every instant is reduced to its day number.
- `app/controllers/api/searches_controller.rb` is not part of this model. It is a thin wrapper over search scopes and JSON rendering.
