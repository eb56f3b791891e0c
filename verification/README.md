# Trip planner core, modelled in Dafny

This project models the logic of a small trip-planning web application. The application keeps trips, the activities of each trip and the packing list of each trip in three in-memory services. Its pages put that data on screen:

- a day-by-day timeline;
- an overview with status and statistics;
- a calendar;
- a packing list grouped by category.

Three modal forms validate user input and save it through the services.

All of this is sequential logic over lists, records, strings and integers. The model states it as pure Dafny functions over immutable datatypes. A service call takes the current store and returns either a new store with a value, or an error (`Result`). A page handler takes the page state, and the store where it calls a service, and returns the new state.

Units:

- **Date:** an integer day number.
- **Time of day:** minutes after midnight.
- **Instant:** a count of minutes. Midnight of day `d` is `d * 1440`.

Modules follow the program's structure:

- **Shared helpers:**
  - `Common`: `Option`, `Result` and `Reply`.
  - `Seqs`: filter, index search, replace and remove.
  - `Sorting`: a stable insertion sort on a two-part key.
  - `Grouping`: the insertion-ordered "object of arrays" and the counting reduce.
  - `Text`: trim, lower-case and `parseInt`.
  - `Days`: day arithmetic.
  - `Forms`: the error object shared by the forms.
- **Data:**
  - `Entities`: the three record kinds and the `{ ...old, ...data }` merge.
  - `Store`: the `find`/`findIndex`/`splice` core that the three services share.
- **Services:** `TripService`, `ActivityService`, `PackingService`.
- **Pages:** `Timeline`, `Overview`, `Calendar`, `PackingPage`.
- **Components:** `ActivityCard`, `PackingCategory`.
- **Forms:** `ActivityModal`, `PackingItemModal`, `CreateTripModal`.

Every function is total. No `requires` excludes an input that the JavaScript handles:

- a missing id gives the "not found" error;
- a missing trip gives an empty list of days or the unknown status;
- text that does not parse gives `None`.

Fresh ids, the current time and the user's answer to a confirmation dialog are parameters.

## Model

| member | source | states |
|---|---|---|
| `Store.Get` | src/services/api/activityService.js:18-25 | Fails with the given not-found message exactly when no record has the id; otherwise returns the record at the first index holding that id. |
| `Store.Modify` | src/services/api/packingService.js:38-46 | Fails with the message exactly when the id is absent; otherwise changes only the first record with the id, in place, and returns the changed record. |
| `Store.Remove` | src/services/api/packingService.js:48-56 | Fails with the message exactly when the id is absent; otherwise splices out the first record with the id, shortens the store by one and returns true. |
| `Store.GetAfterAppend` | src/services/api/packingService.js:27-36 | A record appended under an unused id is what a later lookup of that id returns, and distinct ids stay distinct. |
| `Store.GetAfterModify` | src/services/api/tripService.js:33-41 | After an in-place change that keeps the id, looking the id up returns the changed record. |
| `Store.ModifyKeepsDistinct` | src/services/api/tripService.js:33-41 | An in-place change that keeps the id keeps all ids distinct. |
| `Store.ModifyKeepsOthers` | src/services/api/activityService.js:37-45 | After an in-place change, a lookup of any other id gives the same answer as before. |
| `Store.ModifyTwiceRestores` | src/services/api/packingService.js:58-66 | Applying an id-preserving involution twice to the same id succeeds both times and restores the original store. |
| `Store.RemoveDeletes` | src/services/api/activityService.js:47-55 | With distinct ids, after a delete the id is no longer found and the remaining ids stay distinct. |
| `Store.RemoveKeepsOthers` | src/services/api/tripService.js:43-51 | After a delete, a lookup of any other id gives the same answer as before. |
| `Store.GetAfterRemoveAt` | src/services/api/packingService.js:48-56 | Splicing out a record whose id is not `other` leaves the lookup of `other` unchanged, whether or not it is present. |
| `Store.WithoutId` | src/components/pages/Timeline.jsx:68 | The list after `filter(a => a.id !== id)` holds only listed records without that id, and every listed record without it. |
| `ActivityService.GetAll` | src/services/api/activityService.js:8-11 | Returns a list equal, element by element, to the store. |
| `ActivityService.GetByTripId` | src/services/api/activityService.js:13-16 | Every returned activity belongs to the trip and is in the store; every stored activity of the trip is returned; no longer than the store. |
| `ActivityService.GetById` | src/services/api/activityService.js:18-25 | "Activity not found" exactly when no activity has the id; otherwise the first activity with that id. |
| `ActivityService.Create` | src/services/api/activityService.js:27-35 | Appends one activity with the input fields and the new id, and returns it. |
| `ActivityService.Update` | src/services/api/activityService.js:37-45 | "Activity not found" exactly when the id is absent; otherwise the first activity with the id is replaced, at the same index, by its merge with the patch. |
| `ActivityService.Delete` | src/services/api/activityService.js:47-55 | "Activity not found" exactly when the id is absent; otherwise removes the first activity with the id and returns true. |
| `ActivityService.Reorder` | src/services/api/activityService.js:57-64 | Returns the given list. The new store is the other trips' activities in their stored order, followed by the given list. It holds no other activity of the trip, and its length is the old length minus the trip's activities plus the given ones. |
| `ActivityService.CreateThenGet` | src/services/api/activityService.js:27-35 | A created activity with an unused id is found by id, and a trip's list gains it at the end exactly when the activity belongs to that trip. |
| `ActivityService.UpdateThenGet` | src/services/api/activityService.js:37-45 | After an update that does not rename the record, the id fetches the merged record and every other id fetches what it did before. |
| `ActivityService.UpdateEmptyPatch` | src/services/api/activityService.js:43 | Updating a present id with an empty patch succeeds and leaves the store unchanged. |
| `ActivityService.DeleteThenGet` | src/services/api/activityService.js:47-55 | With distinct ids, after a delete the id is not found and every other id fetches what it did before. |
| `ActivityService.ReorderLists` | src/services/api/activityService.js:57-64 | After a reorder with activities of the trip, the trip's list is exactly the given list, and every other trip's list is unchanged. |
| `ActivityService.ReorderPermutes` | src/services/api/activityService.js:60-62 | A reorder that passes a permutation of the trip's activities leaves the store a permutation of itself. |
| `ActivityService.ReorderKeepsOtherTrips` | src/services/api/activityService.js:60 | Everything in front of the given list is a stored activity of another trip, and every stored activity of another trip is there. |
| `TripService.GetAll` | src/services/api/tripService.js:8-11 | Returns a list equal, element by element, to the store. |
| `TripService.GetById` | src/services/api/tripService.js:13-20 | "Trip not found" exactly when no trip has the id; otherwise the first trip with that id. |
| `TripService.Create` | src/services/api/tripService.js:22-31 | Appends one trip with the input fields, the new id and the creation time, and returns it. |
| `TripService.Update` | src/services/api/tripService.js:33-41 | "Trip not found" exactly when the id is absent; otherwise the first trip with the id is replaced, at the same index, by its merge with the patch. |
| `TripService.Delete` | src/services/api/tripService.js:43-51 | "Trip not found" exactly when the id is absent; otherwise removes the first trip with the id and returns true. |
| `TripService.CreateThenGet` | src/services/api/tripService.js:22-31 | A created trip with an unused id is found by id and is the last trip listed. |
| `TripService.UpdateThenGet` | src/services/api/tripService.js:33-41 | After an update that does not rename the trip, the id fetches the merged trip and other ids are unaffected. |
| `TripService.DeleteThenGet` | src/services/api/tripService.js:43-51 | With distinct ids, after a delete the id is not found and other ids are unaffected. |
| `PackingService.GetAll` | src/services/api/packingService.js:8-11 | Returns a list equal, element by element, to the store. |
| `PackingService.GetByTripId` | src/services/api/packingService.js:13-16 | Every returned item belongs to the trip and is in the store; every stored item of the trip is returned. |
| `PackingService.GetById` | src/services/api/packingService.js:18-25 | "Packing item not found" exactly when no item has the id; otherwise the first item with that id. |
| `PackingService.Create` | src/services/api/packingService.js:27-36 | Appends one item with the input fields, the new id and `packed` false, and returns it. |
| `PackingService.Update` | src/services/api/packingService.js:38-46 | "Packing item not found" exactly when the id is absent; otherwise the first item with the id is merged with the patch at the same index. |
| `PackingService.Delete` | src/services/api/packingService.js:48-56 | "Packing item not found" exactly when the id is absent; otherwise removes the first item with the id and returns true. |
| `PackingService.TogglePacked` | src/services/api/packingService.js:58-66 | "Packing item not found" exactly when the id is absent. Otherwise, on the first item with the id, `packed` is negated, every other field of that item is kept, every other item is kept, and the flipped item is returned. |
| `PackingService.Flip` | src/services/api/packingService.js:64 | Flipping changes `packed` and nothing else. |
| `PackingService.CreateThenGet` | src/services/api/packingService.js:27-36 | A created item with an unused id is found by id, and a trip's list gains it at the end exactly when the item belongs to that trip. |
| `PackingService.UpdateThenGet` | src/services/api/packingService.js:38-46 | After an update that does not rename the item, the id fetches the merged item and other ids are unaffected. |
| `PackingService.DeleteThenGet` | src/services/api/packingService.js:48-56 | With distinct ids, after a delete the id is not found and other ids are unaffected. |
| `PackingService.ToggleTwiceRestores` | src/services/api/packingService.js:58-66 | After one toggle, the id fetches the returned item. Toggling the same id a second time succeeds and restores the original store. |
| `Entities.MergeTripEmptyPatch` | src/services/api/tripService.js:39 | A trip merge with a patch that carries no key changes nothing. |
| `Entities.MergeActivityEmptyPatch` | src/services/api/activityService.js:43 | An activity merge with a patch that carries no key changes nothing. |
| `Entities.MergeItemEmptyPatch` | src/services/api/packingService.js:44 | A packing-item merge with a patch that carries no key changes nothing. |
| `Days.DayRange` | src/components/pages/Timeline.jsx:85-97 | Every day from start to end inclusive, one per day, in order; none when the end is before the start. |
| `Days.DayOf` | src/components/pages/Calendar.jsx:109 | The day of an instant is the one whose midnight is at or before it and whose next midnight is after it. |
| `Days.InDayRange` | src/components/pages/Timeline.jsx:85-97 | A day is in the range exactly when it lies between the two ends. |
| `Days.DurationInDays` | src/components/pages/Timeline.jsx:181 | The displayed trip length `differenceInDays(end, start) + 1` is the number of days the trip lists when the end is not before the start, and is not positive otherwise. |
| `Days.InstantVersusMidnight` | src/components/pages/Calendar.jsx:100-104 | An instant is at or after a day's midnight exactly when its day is that day or later. It is at or before that midnight exactly when its day is earlier, or it is the midnight itself. |
| `Timeline.AvailableDates` | src/components/pages/Timeline.jsx:85-97 | No trip gives no days. A trip gives as many days as its displayed length, or none when the end is before the start; day `i` is the start plus `i`. |
| `Timeline.AvailableDatesMembers` | src/components/pages/Timeline.jsx:85-97 | A day is offered exactly when a trip is loaded and the day lies within it. |
| `Timeline.DayBuckets` | src/components/pages/Timeline.jsx:99-125 | One bucket per available day, in day order. Each bucket is a permutation of the activities dated that day, sorted timed first by time and then untimed. |
| `Timeline.FillBuckets` | src/components/pages/Timeline.jsx:100-114 | After the loop visits every activity, each available day's bucket holds exactly that day's activities in list order, and there is one bucket per available day. |
| `Timeline.GroupActivitiesByDate` | src/components/pages/Timeline.jsx:99-125 | Filling the buckets and then sorting each one computes exactly `DayBuckets`. |
| `Timeline.SortedBucketOrder` | src/components/pages/Timeline.jsx:116-122 | In a bucket no untimed activity precedes a timed one, and timed activities are in non-decreasing time order. |
| `Timeline.BucketMembers` | src/components/pages/Timeline.jsx:109-113 | An activity is in a day's bucket exactly when it is listed and dated that day. |
| `Timeline.ShownIffInTrip` | src/components/pages/Timeline.jsx:109-113 | A listed activity appears in some bucket exactly when its date is one of the trip's days, and then only under its own day. |
| `Timeline.HandleActivitySaved` | src/components/pages/Timeline.jsx:47-56 | When editing, the list keeps its length and the entry with the saved id becomes the saved activity, all others unchanged; otherwise the saved activity is appended. |
| `Timeline.HandleDeleteActivity` | src/components/pages/Timeline.jsx:63-73 | Without confirmation, or when the service fails, nothing changes. Otherwise the store is the service's new store and the list drops exactly the entries with that id. |
| `Timeline.CreateKeepsInSync` | src/components/pages/Timeline.jsx:47-56 | After creating an activity of the trip, the appended list equals what the service now returns for the trip. |
| `Timeline.UpdateKeepsInSync` | src/components/pages/Timeline.jsx:47-56 | After editing an activity of the trip without moving or renaming it, the replaced list equals what the service now returns for the trip. |
| `Timeline.ReplaceKeepsInSync` | src/components/pages/Timeline.jsx:50-52 | With distinct ids, replacing a stored activity of the trip by one with the same id and trip shows in the trip's list as the page's replace-by-id. |
| `Timeline.DeleteKeepsInSync` | src/components/pages/Timeline.jsx:63-73 | After a confirmed delete with distinct ids, the filtered list equals what the service now returns for the trip. |
| `Overview.TripStatusAsWritten` | src/components/pages/Overview.jsx:46-60 | Unknown exactly without a trip. Upcoming exactly before the start day's midnight. Completed exactly after the end day's midnight. Active otherwise. |
| `Overview.LastDayReadsCompleted` | src/components/pages/Overview.jsx:55-56 | For a one-day trip, 10:00 on that day reads Completed as written, though the day is the trip's end day. |
| `Overview.TripStatus` | src/components/pages/Overview.jsx:46-60 | Unknown exactly without a trip, upcoming exactly before the first day, active exactly on the trip's days, completed after them. |
| `Overview.StatusDiffersOnlyOnLastDay` | src/components/pages/Overview.jsx:53-59 | The written and the day-based status differ exactly on the last day after its first minute, when the first says Completed and the second Active. |
| `Overview.GetPackingStats` | src/components/pages/Overview.jsx:62-68 | Total is the item count and packed is the number of packed items. For a non-empty list, progress times total is packed times 100, which is `packed / total * 100`; for an empty list it is 0. Progress lies in [0, 100]: it is 0 exactly when nothing is packed and 100 exactly when all of a non-empty list is packed. |
| `Overview.PackingProgressMeaning` | src/components/pages/Packing.jsx:104-110 | Progress 100 exactly when the list is non-empty and every item is packed; 0 exactly when no item is packed. |
| `Overview.GetActivityStats` | src/components/pages/Overview.jsx:70-80 | Total is the activity count and every tallied type has a positive count. |
| `Overview.ActivityStatsCounts` | src/components/pages/Overview.jsx:71-74 | A type is tallied exactly when some activity has it, and its count is the number of activities of that type. |
| `Overview.ActivityStatsTotal` | src/components/pages/Overview.jsx:70-80 | Each type's count is the size of that type's group, and the group sizes sum to the total. |
| `Overview.Breakdown` | src/components/pages/Overview.jsx:314 | One entry per type group. Each entry is a tallied type with its count, and every tallied type has an entry. |
| `Overview.EntriesOfGroups` | src/components/pages/Overview.jsx:70-80 | Entries built from the groups by type are exactly the tally's entries, with the same counts. |
| `Overview.BreakdownInFirstOccurrenceOrder` | src/components/pages/Overview.jsx:71-74 | When one type is listed before another, some activity of the first type comes before every activity of the second. |
| `Overview.UpcomingActivities` | src/components/pages/Overview.jsx:82-92 | At most three activities, fewer only when fewer are dated today or later. Each is a listed activity dated today or later, and none appears more often than it does among those. They are ordered by date then time, a missing time first. |
| `Overview.UpcomingMembers` | src/components/pages/Overview.jsx:84-90 | The sorted filtered list holds only listed activities dated today or later. |
| `Overview.UpcomingAreEarliest` | src/components/pages/Overview.jsx:84-91 | An activity dated today or later is left out only when three are shown, each at or before it in (date, time) order. |
| `Overview.UpcomingIconAsWritten` | src/components/pages/Overview.jsx:272-276 | Transport gets the pin icon in the upcoming list. |
| `Overview.UpcomingIconDiffersOnTransport` | src/components/pages/Overview.jsx:273-276 | The upcoming list's icon differs from the activity card's icon exactly for transport. |
| `Overview.UpcomingIcon` | src/components/molecules/ActivityCard.jsx:7-17 | The corrected upcoming icon is the activity card's icon, and agrees with the written one on every type but transport. |
| `Overview.BreakdownIcon` | src/components/pages/Overview.jsx:323-328 | The type-breakdown icon is the activity card's icon for every type. |
| `Calendar.EventTitle` | src/components/pages/Calendar.jsx:88 | A non-empty title is the event title; an empty one gives way to the legacy name. |
| `Calendar.ToEvent` | src/components/pages/Calendar.jsx:62-95 | The event carries the activity's id and the activity. It is all-day exactly when untimed, running from the day's midnight to the next. Otherwise it starts at the time on the activity's day and lasts the duration, or 60 minutes when the duration is 0. |
| `Calendar.CalendarEvents` | src/components/pages/Calendar.jsx:62-95 | One event per activity, in order. Each event has its activity's id, the activity itself and the title `title || name`. It is all-day exactly when the activity is untimed, and then covers that day from midnight to midnight. Otherwise it starts at the time on the activity's day and lasts the duration, or 60 minutes when the duration is 0. |
| `Calendar.EventOnActivityDay` | src/components/pages/Calendar.jsx:64-84 | An activity whose time lies within a day starts on its own date, and an untimed one lasts exactly one day. |
| `Calendar.CalendarAgreesWithTimeline` | src/components/pages/Calendar.jsx:62-95 | An event starts on one of the trip's days exactly when the timeline shows its activity in some day's bucket. |
| `Calendar.GetAvailableDates` | src/components/pages/Calendar.jsx:155-171 | The day-by-day loop yields exactly the timeline's list of days: none without a trip or when the end is before the start. |
| `Calendar.EventColor` | src/components/pages/Calendar.jsx:173-206 | The colour differs from the default blue exactly when the lower-cased type is flight, hotel, restaurant or activity. |
| `Calendar.EventColorIgnoresCase` | src/components/pages/Calendar.jsx:187 | A type and its lower-cased form get the same colour. |
| `Calendar.EventColorsDistinct` | src/components/pages/Calendar.jsx:187-202 | A known type shares its colour with another type exactly when the two agree after lower-casing. |
| `Calendar.SelectSlotAsWritten` | src/components/pages/Calendar.jsx:97-112 | Without a trip nothing changes. With one, the slot opens the form for its day exactly when that day is not before the first day and is either before the last day or exactly the last day's midnight. Otherwise nothing changes. It never opens the form for a day outside the trip. |
| `Calendar.LastDaySlotRefused` | src/components/pages/Calendar.jsx:104 | On a two-day trip a 10:00 slot on the last day is refused as written, and accepted by the day guard. |
| `Calendar.SlotGuardsAgreeAtMidnight` | src/components/pages/Calendar.jsx:104 | For slots starting at midnight, as the month view hands them over, the written and the corrected guard agree. |
| `Calendar.SlotGuardsDifferOnlyOnLastDay` | src/components/pages/Calendar.jsx:100-104 | For every page and slot, the written and the day guard give the same page, except on the last day after its midnight. There the written guard refuses the slot and the day guard accepts it. |
| `Calendar.SelectSlot` | src/components/pages/Calendar.jsx:97-112 | A slot on one of the loaded trip's days selects that day and opens the form for a new activity; any other slot changes nothing. |
| `Calendar.SelectEvent` | src/components/pages/Calendar.jsx:114-117 | Clicking an event opens the form to edit that event's activity, the list and the selected day unchanged. |
| `Calendar.FormOnOpenAsWritten` | src/components/pages/Calendar.jsx:397-404 | A new activity's form is prefilled with the trip's first day, or no day without a trip, whatever day was selected. |
| `Calendar.SelectedDayIgnored` | src/components/pages/Calendar.jsx:404 | Selecting the third day of a three-day trip prefills the first day as written and the third day when the selection is used. |
| `Calendar.FormOnOpen` | src/components/pages/Calendar.jsx:109 | A new activity's form is prefilled with the selected day when one was selected, and otherwise opens as written. |
| `Calendar.HandleActivitySaved` | src/components/pages/Calendar.jsx:119-129 | The list is replaced by id when editing and appended to otherwise; the edited activity and the selected day are cleared. |
| `PackingPage.GroupItemsByCategory` | src/components/pages/Packing.jsx:91-102 | The groups partition the items: distinct categories, no empty group, each group holds exactly its category's items in list order, every item's category has a group, and the sizes sum to the item count. |
| `PackingPage.CardOfCategory` | src/components/pages/Packing.jsx:94-99 | A category's group is the items of that category in list order, and it exists exactly when some item has that category. |
| `PackingPage.CardsAddUpToStats` | src/components/pages/Packing.jsx:104-110 | Group sizes sum to the page's total and per-group packed counts sum to the page's packed count. |
| `PackingPage.HandleToggleItem` | src/components/pages/Packing.jsx:47-62 | When the service fails nothing changes. Otherwise the store is the service's new store, and the list keeps its length while only the entries with the returned id become the returned item. |
| `PackingPage.HandleDeleteItem` | src/components/pages/Packing.jsx:64-74 | Without confirmation, or when the service fails, nothing changes. Otherwise the store is the service's new store and the list drops exactly the entries with that id. |
| `PackingPage.HandleItemSaved` | src/components/pages/Packing.jsx:81-84 | The saved item is appended after the unchanged list and the preselected category is cleared. |
| `PackingPage.HandleAddItem` | src/components/pages/Packing.jsx:76-79 | The form opens with the given category preselected and the list unchanged. |
| `PackingPage.AddFromCardPrefillsCategory` | src/components/organisms/PackingItemModal.jsx:18-27 | The form opened from a card has an empty name, quantity 1 and that card's category (other when none is given). |
| `PackingPage.SavedItemJoinsItsCard` | src/components/pages/Packing.jsx:81-102 | After a save, the saved item's category group gains it at the end and every other group is unchanged. |
| `PackingPage.ToggleKeepsInSync` | src/components/pages/Packing.jsx:47-52 | After a toggle with distinct ids, the page list equals what the service now returns for the trip. |
| `PackingPage.DeleteKeepsInSync` | src/components/pages/Packing.jsx:64-69 | After a confirmed delete with distinct ids, the page list equals what the service now returns for the trip. |
| `PackingPage.CreateKeepsInSync` | src/components/pages/Packing.jsx:81-84 | After creating an item of the trip, the appended list equals what the service now returns for the trip. |
| `PackingCategory.CategoryIcon` | src/components/molecules/PackingCategory.jsx:12-23 | Any category outside the seven known ones gets the Package icon. |
| `PackingCategory.CategoryColor` | src/components/molecules/PackingCategory.jsx:25-36 | Any category outside the seven known ones gets the default colour. |
| `PackingCategory.Progress` | src/components/molecules/PackingCategory.jsx:38-40 | Total is the item count and packed is the number of packed items. For a non-empty category, the percentage times total is packed times 100; for an empty one it is 0. The percentage lies in [0, 100]: it is 100 exactly when all of a non-empty list is packed and 0 exactly when nothing is packed. |
| `PackingCategory.ShareBounds` | src/components/molecules/PackingCategory.jsx:40 | `part / whole * 100` (0 for no whole) times `whole` is `part * 100`. It lies in [0, 100], is 0 exactly for no part, and is 100 exactly for all of a positive whole. |
| `PackingCategory.ProgressFullIffAllPacked` | src/components/molecules/PackingCategory.jsx:38-40 | The bar is full exactly when the category has items and every one is packed. |
| `ActivityCard.ActivityIcon` | src/components/molecules/ActivityCard.jsx:7-17 | Unknown types get the MapPin icon. |
| `ActivityCard.ActivityColor` | src/components/molecules/ActivityCard.jsx:19-29 | Unknown types get the default colour. |
| `ActivityCard.FormatDuration` | src/components/molecules/ActivityCard.jsx:31-36 | The label has at least two characters and ends in "m" below an hour. |
| `ActivityCard.FormatDurationRoundTrip` | src/components/molecules/ActivityCard.jsx:31-36 | Reading the label back gives the non-negative duration it was made from, so no two such durations share a label. The reader accepts only `Nm` with N below 60, `Nh` with at least one hour, and `Nh Mm` with at least one hour and M from 1 to 59, each number without leading zeros. |
| `ActivityCard.ReadOnlyLabels` | src/components/molecules/ActivityCard.jsx:31-36 | Any text the reader accepts as m minutes is exactly the label of m. With the round trip, this makes the label `Nm` below an hour, `Hh Mm` when minutes remain, and `Hh` on the hour. |
| `ActivityCard.ReadHoursMinutesLabel` | src/components/molecules/ActivityCard.jsx:35 | A label "Hh Mm" with at least one hour and M from 1 to 59 reads back as `60*H + M`. |
| `ActivityModal.TypeIconsMatchCard` | src/components/organisms/ActivityModal.jsx:49-56 | The type picker offers exactly the card's known types, in order, each with the card's icon. |
| `ActivityModal.Prefill` | src/components/organisms/ActivityModal.jsx:24-47 | Editing copies type, title, date and time, and the duration text parses back to the duration. Location and notes are copied, or empty when the activity has none. A new form is sightseeing, on the first available day (none without days), with every other field empty. |
| `ActivityModal.HandleChange` | src/components/organisms/ActivityModal.jsx:58-65 | Each of the seven edits sets its own field to the new value and leaves the rest of the form as it was. Only that field's error is blanked. |
| `ActivityModal.Validate` | src/components/organisms/ActivityModal.jsx:67-76 | Title, date and time each get an error exactly when blank or missing, and no other key appears. Valid exactly when none does. |
| `ActivityModal.Duration` | src/components/organisms/ActivityModal.jsx:88 | The parsed number when the text parses, otherwise 0. |
| `ActivityModal.Payload` | src/components/organisms/ActivityModal.jsx:85-89 | The update carries every form field: type, title, date, time, location and notes as typed, the parsed duration in place of the duration text, and the trip id. It carries neither an id nor a name. |
| `ActivityModal.NewActivity` | src/components/organisms/ActivityModal.jsx:85-96 | The created record carries the trip id, the form's type, title, date, time, location and notes, and the parsed duration, and no name. |
| `ActivityModal.Submit` | src/components/organisms/ActivityModal.jsx:78-107 | Rejected exactly when validation reports errors. A saved activity carries the trip id and the form's type, title, date, time, location, notes and parsed duration. A new one is appended under the fresh id. An edit replaces the first record with the edited id, in place: that record's id and name are kept, and the rest of the store is unchanged. The save fails exactly when the edited id is gone. |
| `ActivityModal.NewFormNeedsTitleAndTime` | src/components/organisms/ActivityModal.jsx:35-44 | A freshly opened new form fails validation on title and time, and on date exactly when there are no days. |
| `ActivityModal.EditUnchangedKeepsStore` | src/components/organisms/ActivityModal.jsx:78-100 | Saving an edit form without changes leaves the store as it was and hands back the same activity, for an activity with a title, a time, a location and notes. |
| `ActivityModal.UpdateToItself` | src/services/api/activityService.js:37-45 | With distinct ids, an update whose merge gives back the stored activity succeeds, leaves the store unchanged and returns that activity. |
| `ActivityModal.UnchangedFormMergesToItself` | src/components/organisms/ActivityModal.jsx:24-33 | The update sent by an edit form opened on an activity with a location and notes merges back into that activity. |
| `PackingItemModal.CategoryIconsMatchCard` | src/components/organisms/PackingItemModal.jsx:29-37 | The category picker offers exactly the card's known categories, in order, each with the card's icon. |
| `PackingItemModal.OpenForm` | src/components/organisms/PackingItemModal.jsx:18-27 | Opening resets to an empty name, quantity "1" and the given category, or other when none. |
| `PackingItemModal.HandleChange` | src/components/organisms/PackingItemModal.jsx:39-46 | The named field takes the new value and only that field's error is blanked. |
| `PackingItemModal.Validate` | src/components/organisms/PackingItemModal.jsx:48-58 | A name error exactly when the name is blank, a quantity error exactly when the quantity is empty or parses below 1, and no other key. |
| `PackingItemModal.Submit` | src/components/organisms/PackingItemModal.jsx:60-82 | Rejected exactly when validation reports errors; otherwise one unpacked item of the trip is appended under the fresh id with the form's name, category and parsed quantity. |
| `PackingItemModal.SavedQuantityAtLeastOne` | src/components/organisms/PackingItemModal.jsx:52-54 | A saved item's quantity is at least 1 or does not parse. |
| `PackingItemModal.OpenFormNeedsOnlyName` | src/components/organisms/PackingItemModal.jsx:18-27 | A freshly opened form fails validation on the name only. |
| `CreateTripModal.Validate` | src/components/organisms/CreateTripModal.jsx:29-45 | Name and destination get errors exactly when blank, and the start date exactly when missing. The end date gets one exactly when missing or not after the start, with the ordering message in the latter case. No other key appears. |
| `CreateTripModal.CoverImageOrDefault` | src/components/organisms/CreateTripModal.jsx:56 | Never empty; a given cover image passes through unchanged. |
| `CreateTripModal.HandleChange` | src/components/organisms/CreateTripModal.jsx:20-27 | Each of the five edits sets its own field to the new value and leaves the rest of the form as it was. Only that field's error is blanked. |
| `CreateTripModal.Submit` | src/components/organisms/CreateTripModal.jsx:47-77 | Rejected, keeping the form, exactly when validation reports errors. Otherwise the trip with the form's fields and the cover image or its default is appended under the fresh id and time, and the form is reset to empty. |
| `CreateTripModal.CreatedTripSpansTwoDays` | src/components/organisms/CreateTripModal.jsx:37-41 | A trip created through the form ends after it starts, so its timeline offers at least two days, and it has a cover image. |
| `Forms.ClearError` | src/components/organisms/ActivityModal.jsx:62-64 | The error keys stay the same, the edited field shows no error, and every other field's entry is kept. |
| `Grouping.GroupByPartitions` | src/components/pages/Packing.jsx:91-102 | The grouped object partitions the list by key: distinct keys, no empty group, each group the list's elements with that key in order, every element's key present. |
| `Grouping.GroupBySize` | src/components/pages/Packing.jsx:91-102 | The group sizes sum to the list length. |
| `Grouping.GroupByCount` | src/components/pages/Packing.jsx:104-110 | Per-group counts of any property sum to the count over the whole list. |
| `Grouping.TallyCounts` | src/components/pages/Overview.jsx:71-74 | A key is tallied exactly when some element carries it, with the number of elements that do. |
| `Grouping.TallyMatchesGroupBy` | src/components/pages/Overview.jsx:71-74 | Each tallied count is the size of that key's group. |
| `Grouping.TallyEntriesAreGroups` | src/components/pages/Overview.jsx:71-74 | Every group's key is tallied with that group's size, and every tallied key has a group. |
| `Grouping.GroupByFirstOccurrence` | src/components/pages/Packing.jsx:91-102 | Groups come in the order their keys first occur in the list. |
| `Sorting.Sort` | src/components/pages/Timeline.jsx:116-122 | The sorted list is a permutation of the input, ordered by the key. |
| `Sorting.SortStable` | src/components/pages/Overview.jsx:86-91 | The sort is stable: for every key, the elements with that key keep their input order. So of several activities with the same date and time, the upcoming list keeps the earliest listed, as `Array.prototype.sort` does. |
| `Text.TrimEmptyIffBlank` | src/components/organisms/ActivityModal.jsx:70 | `trim()` yields the empty string exactly when the text is all white space. |
| `Text.ParseIntNaN` | src/components/organisms/PackingItemModal.jsx:52 | `parseInt` gives NaN exactly when no digit follows the leading white space and an optional sign. A negative result comes only after a minus sign. |
| `Text.ParseIntOfDigits` | src/components/organisms/PackingItemModal.jsx:70 | `parseInt` of a plain run of digits is the number those digits denote. |
| `Text.CanonicalDigits` | src/components/molecules/ActivityCard.jsx:32 | A digit string without a leading zero is exactly the text `String(n)` writes for its value. |
| `Text.ParseIntRoundTrip` | src/components/organisms/ActivityModal.jsx:31 | Parsing the decimal text of an integer gives that integer back. |
| `Text.ToLowerIdempotent` | src/components/pages/Calendar.jsx:187 | Lower-casing twice is lower-casing once. |

## Left out

- Asynchronous plumbing is not modelled: the `delay` timers, `Promise.all` page loading, loading and error states, toasts, and the Calendar's redirect on a missing record. Each service call is a synchronous function returning a value or an error.
- Record identity and aliasing are not modelled. Records are values here. In the source, `getAll` copies only the array, so its records are the stored objects (src/services/api/activityService.js:10). `reorder` stores the caller's own objects (src/services/api/activityService.js:62). `togglePacked` flips the stored object in place (src/services/api/packingService.js:64), so an array returned earlier sees the change.
- Grouping assumes keys that are not array indices. JavaScript lists keys such as `"1"` first, in ascending numeric order, before the other keys in insertion order. The activity types and packing categories come from fixed pickers and are never such keys.
- Days.DayRange: assumes version 2 of date-fns, where `eachDayOfInterval` throws on an interval whose end is before its start and `getAvailableDates` catches it and returns `[]` (src/components/pages/Timeline.jsx:85-97). The source carries no package manifest that fixes the version. Version 3 returns the days in reverse order instead, and the timeline would then no longer agree with the calendar's loop (src/components/pages/Calendar.jsx:155-171), which yields no days.
- `window.confirm` is a boolean parameter, `Date.now()` ids are a fresh-id parameter, and `new Date()` is a minutes parameter. Id uniqueness is a `requires` (unused new id, or `DistinctIds`) only in the lemmas that need it.
- Dates and times are not strings. A date is a day number and a time is minutes after midnight, so the `"HH:MM"` splitting and the `minutes \|\| 0` default are not modelled. Time zones, daylight saving time and the date and calendar libraries are not modelled either: midnight of a date is `day * 1440`.
- Progress percentages are exact reals; `Math.round` in the rendering is left out.
- The modal open and close handlers are not modelled: `handleEditActivity`, `handleAddActivity`, `handleCloseModal` and the forms' `handleClose`. Their only logic is setting flags; the Calendar's `handleSelectEvent` is modelled as `Calendar.SelectEvent`.
- The Calendar's `handleDeleteActivity` (src/components/pages/Calendar.jsx:131-141) is the same code as the Timeline's and is `Timeline.HandleDeleteActivity`. The Packing page's `getPackingStats` is the same code as the Overview's and is `Overview.GetPackingStats`.
- `Text.ToLower` folds only the ASCII letters. `Text.Trim` removes ASCII white space, the no-break space and the byte-order mark, but not the other Unicode space separators or line terminators that JavaScript's `trim` also removes.
- The status badge's label and colour (src/components/pages/Overview.jsx:47-59) are not modelled. Each status has one fixed label and one fixed colour, and the model states the status itself.
- `Text.ParseInt` reads base 10 only. A `0x` prefix is not modelled; the forms never produce one.
- JavaScript object lookups such as `icons[type]` are modelled as string matches. Inherited prototype keys such as `"constructor"` are not modelled.
- Timeline.DayBuckets: the page's comparator answers 1 whenever the first activity has no time, so it is inconsistent for two untimed activities, and their relative order is whatever the engine's sort does. The model uses a stable sort, keeping list order among untimed activities. `Timeline.SortedBucketOrder` states only what the source fixes.
- ActivityService.GetByTripId: the function's own contract states membership in both directions but not list order or multiplicity. Order is stated by the lemmas that use it: `CreateThenGet`, `ReorderLists` and the page `KeepsInSync` lemmas compare it with whole lists.
- PackingService.GetByTripId: the same as `ActivityService.GetByTripId`.
- ActivityCard.FormatDuration: its own contract only fixes the label's shape. The exact text is pinned by `ActivityCard.FormatDurationRoundTrip` together with `ActivityCard.ReadOnlyLabels`, for non-negative durations only. The card shows only positive durations (src/components/molecules/ActivityCard.jsx:86). A negative duration would print as `-Nm`, which the reader does not accept.
- The backend record-store variant, authentication, routing, the trip card and all rendering are not modelled.

## Findings

| source | as written | input that shows it | evidently intended | confidence | as-written member | corrected member |
|---|---|---|---|---|---|---|
| src/components/pages/Overview.jsx:53-56 | `isAfter(now, endDate)` compares the current instant with midnight at the start of the last day | a one-day trip on day 0, viewed at 10:00 that day, reads "Completed" | the trip is active through the whole of its last day | high, not executed | `Overview.TripStatusAsWritten`, `Overview.LastDayReadsCompleted` | `Overview.TripStatus` |
| src/components/pages/Calendar.jsx:100-104 | the slot's start instant is compared with midnight of the first and last day, so in week and day views every slot on the last day after midnight is refused | a trip from day 0 to day 1, slot at 10:00 on day 1 | every slot on one of the trip's days is accepted | medium, not executed | `Calendar.SelectSlotAsWritten`, `Calendar.LastDaySlotRefused`, `Calendar.SlotGuardsDifferOnlyOnLastDay` | `Calendar.SelectSlot` |
| src/components/pages/Calendar.jsx:404 | the selected day is passed as `defaultDate`, a property the activity form does not take (src/components/organisms/ActivityModal.jsx:9), so a new activity is always prefilled with the trip's first day | a trip from day 0 to day 2, slot on day 2: the form opens on day 0 | the form opens on the selected day | high, not executed | `Calendar.FormOnOpenAsWritten`, `Calendar.SelectedDayIgnored` | `Calendar.FormOnOpen` |
| src/components/pages/Overview.jsx:273-276 | the upcoming list's icon chain has no transport case, so transport shows the pin | an upcoming activity of type "transport" shows MapPin while its card and the type breakdown show Car | transport shows Car as everywhere else | medium, not executed | `Overview.UpcomingIconAsWritten`, `Overview.UpcomingIconDiffersOnTransport` | `Overview.UpcomingIcon` |
