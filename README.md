# scheduler_app core, modelled in Dafny

scheduler_app is a Remix web application in which team owners manage
contractors and customers book one-hour appointments with them. Customers
book through an embeddable widget that posts to a public endpoint guarded
by an API key. This project models the parts of the application that make
decisions:

- the available-times endpoint, which lists hourly slots between 09:00 and
  17:00 minus those whose start falls inside a booking;
- the conflict filter for bookings;
- the weekly availability editor and the table operations behind it;
- the API-key quota rule and the create-booking endpoint, with its
  validation order, defaults and writes;
- the invitation workflow: the invitation model functions, the
  invite-contractor action, and the accept-invitation page;
- the booking widget's selection state and e-mail check;
- the calendar page's visibility toggle and event filter.

Time is an integer number of milliseconds. `dayStart` stands for local
midnight of the requested date. The database is the class `Store.Db`, which
holds one `seq` per table (users, invitations, bookings, availabilities) and
a counter for generated ids. Each ORM call is one method of that class.

Each route or model function that writes is a method on a `Db`. Its
`ensures` gives the new database snapshot and the response as a pure
function of the old snapshot and the inputs. The lemmas state the source's
promises about those functions.

External effects are boolean parameters that say whether the effect
succeeded: e-mail sending (`mailOk`) and the calendar and e-mail
integrations of a booking (`integrationsOk`). The clock is an instant
parameter (`now`). A form field or query parameter that is missing is the
empty string. Every use of such a field in the source treats `null` and
`""` alike.

Modules, one per source file, plus four shared ones:

| module | file |
|---|---|
| `Wrappers`, `Seqs`, `Clock`, `JsText` | shared: Option/Result, filtering and sorting, `HH:mm` text, JavaScript `parseInt` |
| `Store` | the tables and the database client |
| `ConflictDetection` | app/utils/conflictDetection.ts |
| `AvailableTimesRoute` | app/routes/api.available-times.ts |
| `AvailabilityModel` | app/models/availability.server.ts |
| `ProfileAvailability` | app/components/Profile/AvailabilityManager.tsx |
| `ApiKey` | app/utils/apiKey.server.ts |
| `CreateBookingRoute` | app/routes/api.create-booking.ts |
| `InviteModel` | app/models/invite.server.ts, and `getInvitations` of app/models/invitation.server.ts |
| `InvitationModel` | app/models/invitation.server.ts |
| `InviteContractorRoute` | app/routes/invite-contractor.tsx and app/routes/_app.invite-contractor.tsx, whose actions are the same |
| `AcceptInvitationRoute` | app/routes/accept-invitation.tsx |
| `BookingWidget` | app/components/EmbeddableBookingWidget/EmbeddableBookingWidget.tsx |
| `CalendarPage` | app/routes/_app.calendar.tsx |

## Model

| member | source | states |
|---|---|---|
| ConflictDetection.DetectConflicts | app/utils/conflictDetection.ts:3-16 | the result is an order-preserving subsequence of the existing bookings; it holds every existing booking that conflicts with the new one, and only those, each as many times as it occurs among the existing ones |
| ConflictDetection.OverlapsIsHalfOpenOverlap | app/utils/conflictDetection.ts:10-14 | for non-empty intervals the three-disjunct test is exactly half-open overlap `newStart < bookingEnd && bookingStart < newEnd` |
| ConflictDetection.ConflictsWithinAnHour | app/utils/conflictDetection.ts:5-14 | with both bookings taken to last one hour, two bookings conflict exactly when their starts are less than an hour apart |
| ConflictDetection.ConflictSymmetric | app/utils/conflictDetection.ts:10-14 | swapping the new and the existing booking gives the same verdict |
| ConflictDetection.AbuttingNotReported | app/utils/conflictDetection.ts:11-12 | a booking that ends exactly when the new one starts, or starts exactly when it ends, is not reported |
| ConflictDetection.SameStartReported | app/utils/conflictDetection.ts:11-13 | a booking with the same start as the new one is always reported |
| AvailableTimesRoute.Loader | app/routes/api.available-times.ts:13-52 | a missing date or userId gives 400 before any slot is computed; otherwise the answer is the candidate slots filtered against this contractor's bookings of the day |
| AvailableTimesRoute.GenerateSlots | app/routes/api.available-times.ts:37-42 | the loop that steps an instant from 09:00 by one hour while it is before 17:00 produces exactly the candidate slot list |
| AvailableTimesRoute.CandidateSlotsShape | app/routes/api.available-times.ts:17-42 | the candidates are eight `HH:mm` texts that read back as 09:00, 10:00, ..., 16:00, strictly increasing, the last ending at 17:00 |
| Clock.ParseFormatHHmm | app/routes/api.available-times.ts:40 | the `HH:mm` text of a minute of the day reads back to that minute |
| Clock.FormatParseHHmm | app/routes/api.available-times.ts:46 | a well-formed `HH:mm` text is the formatting of the minute it denotes |
| AvailableTimesRoute.ConsideredBookings | app/routes/api.available-times.ts:22-34 | the fetched bookings are exactly this contractor's bookings whose start lies in [09:00, 17:00) of the day, in their stored order and with their multiplicities |
| AvailableTimesRoute.AvailableTimes | app/routes/api.available-times.ts:45-50 | the result is an order-preserving subsequence of the slots it filters |
| AvailableTimesRoute.SlotListedIff | app/routes/api.available-times.ts:45-50 | a candidate slot is listed exactly when no considered booking has `start <= slot start < end` |
| AvailableTimesRoute.AbuttingBookingKeepsSlot | app/routes/api.available-times.ts:47-49 | a booking ending exactly at a slot's start, or starting exactly an hour after it, leaves the slot listed |
| AvailableTimesRoute.PartialOverlapKeepsSlot | app/routes/api.available-times.ts:45-50 | only the slot's start instant is tested: a booking of the second half of the slot's hour leaves the slot listed |
| AvailableTimesRoute.HourBookingRemovesOnlyItsSlot | app/routes/api.available-times.ts:45-50 | a booking of exactly one slot's hour removes that slot and no other |
| AvailableTimesRoute.NoBookingsAllSlots | app/routes/api.available-times.ts:45-52 | with no bookings all eight candidates are listed |
| AvailableTimesRoute.AvailableTimesIdempotent | app/routes/api.available-times.ts:45-50 | filtering an already filtered list against the same bookings changes nothing |
| AvailabilityModel.GetAvailabilityForUser | app/models/availability.server.ts:3-8 | the result is a permutation of exactly the user's rows, sorted by ascending day of week |
| AvailabilityModel.ReplaceAll | app/models/availability.server.ts:10-24 | after the replacement the user's rows carry exactly the given entries in the given order, with no validation of days or windows; other users' rows and the other tables are unchanged |
| AvailabilityModel.UpdateAllAvailabilities | app/models/availability.server.ts:10-25 | the delete and then the insert leave the database as `ReplaceAll` describes, and the call returns the user's sorted rows |
| AvailabilityModel.OldRowsGone | app/models/availability.server.ts:12 | no row the user had before the replacement survives it |
| AvailabilityModel.ReplaceAllIdempotent | app/models/availability.server.ts:10-24 | replacing twice with the same entries gives the user the same entries, and everyone else the same rows, as replacing once |
| ProfileAvailability.InitialAvailabilities | app/components/Profile/AvailabilityManager.tsx:19-24 | seven entries, entry i for day i, taken from the first supplied record for that day, as `find` returns it, or else `temp-i` from 09:00 to 17:00 |
| ProfileAvailability.SaveDayChangesOnlyThatDay | app/components/Profile/AvailabilityManager.tsx:48-52 | saving a day keeps the week's shape and every id, changes only that day's window, and takes 09:00 or 17:00 for an empty input |
| ProfileAvailability.CopyAllCopiesWindow | app/components/Profile/AvailabilityManager.tsx:58-62 | after "copy to all" every entry has the source day's window, the source entry is unchanged, and ids and days stay put |
| ProfileAvailability.CopyAllIdempotent | app/components/Profile/AvailabilityManager.tsx:60-62 | copying from the same day twice equals copying once |
| ProfileAvailability.MergeServerKeepsWeek | app/components/Profile/AvailabilityManager.tsx:32-35 | the merge keeps entry i at day i, takes the server's first entry for a day when the server sent one, and otherwise keeps the current entry |
| ProfileAvailability.TwelveHourRoundTrip | app/components/Profile/AvailabilityManager.tsx:40 | the `h:mm a` text of a minute of the day reads back to that minute |
| ProfileAvailability.FormatTimeRoundTrip | app/components/Profile/AvailabilityManager.tsx:39-41 | `formatTime` succeeds exactly on the texts date-fns reads with 'HH:mm', and its 12-hour text denotes the same time of day |
| ProfileAvailability.StrictTimeReadAlike | app/components/Profile/AvailabilityManager.tsx:40 | a two-digit `HH:mm` text, as the time inputs and the server store it, is read by the lenient parse as the same minute of the day |
| ProfileAvailability.OneDigitHourRead | app/components/Profile/AvailabilityManager.tsx:40 | the parse also reads a one-digit hour, as date-fns does for a two-letter numeric token |
| ProfileAvailability.FormatTimeExamples | app/components/Profile/AvailabilityManager.tsx:39-41 | "00:05" gives "12:05 AM", "13:30" gives "1:30 PM", "12:00" gives "12:00 PM", "9:00" gives "9:00 AM", and "24:00" is refused |
| ProfileAvailability.AvailabilityManager.constructor | app/components/Profile/AvailabilityManager.tsx:19-25 | the state starts as the initial week, nothing is being edited and nothing has been posted |
| ProfileAvailability.AvailabilityManager.HandleEdit | app/components/Profile/AvailabilityManager.tsx:43-45 | only the day being edited changes |
| ProfileAvailability.AvailabilityManager.HandleSave | app/components/Profile/AvailabilityManager.tsx:47-56 | the list becomes the saved list, editing ends, and the whole seven-entry list is posted |
| ProfileAvailability.AvailabilityManager.CopyAllAvailability | app/components/Profile/AvailabilityManager.tsx:58-72 | the list becomes the copied list and the whole seven-entry list is posted |
| ProfileAvailability.AvailabilityManager.OnFetcherData | app/components/Profile/AvailabilityManager.tsx:30-37 | a response with availabilities is merged into the week; one without leaves the state alone; the week's shape is kept |
| ApiKey.ValidateApiKey | app/utils/apiKey.server.ts:8-14 | the key is valid exactly when the user it finds (the first holder) is under their tier's limit; a key no user holds is invalid |
| ApiKey.TierLimits | app/utils/apiKey.server.ts:12-13 | the limit is 50 for 'basic', 500 for 'pro' and none for any other tier, compared strictly |
| ApiKey.QuotaMonotone | app/utils/apiKey.server.ts:12-13 | for a fixed tier, more usage never turns a refused key into a valid one |
| ApiKey.BasicBoundary | app/utils/apiKey.server.ts:13 | a basic user with 49 uses passes and one with 50 is refused |
| JsText.ParseIntString | app/routes/api.create-booking.ts:87 | `parseInt` of the decimal text of any integer gives that integer back |
| CreateBookingRoute.FieldOr | app/routes/api.create-booking.ts:109-115 | a non-empty field is used as sent, and an empty or missing one is replaced by the default |
| CreateBookingRoute.Duration | app/routes/api.create-booking.ts:87 | the duration is never 0: it is the parsed integer when that is a non-zero number, else 60 |
| CreateBookingRoute.DurationOfText | app/routes/api.create-booking.ts:87 | the decimal text of a non-zero number of minutes gives that duration; a missing field or "0" gives 60 |
| CreateBookingRoute.Action | app/routes/api.create-booking.ts:80-153 | the steps against the database leave the snapshot and the answer that `CreateBooking` gives, in the source's order: key present, key valid, insert (which fails for an invalid date or an unknown contractor, writing nothing), increment, integrations |
| CreateBookingRoute.MissingKeyRejected | app/routes/api.create-booking.ts:89-91 | without a key the answer is 400 and nothing is written |
| CreateBookingRoute.InvalidKeyRejected | app/routes/api.create-booking.ts:93-96 | a key no user holds within quota gives 403 and nothing is written |
| CreateBookingRoute.AcceptedRequestWrites | app/routes/api.create-booking.ts:100-120 | an accepted request for a registered contractor appends exactly one booking, with no overlap check. The booking is for the contractor and team owner `userId`, starts at the given instant and ends duration minutes later. It is the row built from the form with the next id, and each missing customer field takes its fixed default ("John", "Doe", "john.doe@example.com", "Chicago", "IL", "123 Main St", "Booking notes"). Every holder of the key gets one more use, and nothing else changes |
| CreateBookingRoute.CreatedIff | app/routes/api.create-booking.ts:120-152 | the answer is "created" exactly when the contractor exists and the integrations succeed. An unknown contractor makes the insert fail, so the answer is 500 and nothing is written; a failing integration answers 500 while the booking and the counted use stay |
| CreateBookingRoute.BasicKeyExhausted | app/routes/api.create-booking.ts:93-120 | a basic key with 49 uses books once for its holder, reaches 50, and the next request is refused with 403 and changes nothing |
| InviteModel.GetInvitationsByTeamOwner | app/models/invite.server.ts:4-9 | the result holds each of the owner's invitations as often as the table does, and nothing else, newest first |
| InviteModel.GetInvitations | app/models/invite.server.ts:52-63 | the result holds each invitation to the address as often as the table does, and nothing else, newest first |
| InviteModel.FindManyNewestFirst | app/models/invitation.server.ts:3-14 | the filtered query sorted by `createdAt` descending: exactly the matching rows, newest first; this module's `getInvitations` is this query on the e-mail column |
| InviteModel.CreateInvitation | app/models/invite.server.ts:11-27 | one invitation row is written before the e-mail is sent, so it stays when the e-mail fails; the call returns the row or the e-mail's error |
| InviteModel.InviteContractor | app/models/invite.server.ts:29-50 | the guards run in the source's order and then `createInvitation` runs; the database and the result are as `InviteContractorAt` says |
| InviteModel.InviteRefusedIff | app/models/invite.server.ts:32-47 | with unique e-mails, an invitation is refused exactly when the address belongs to a contractor of this team or to a team owner, or this owner already invited it; contractors of other teams pass |
| InviteModel.RefusalChangesNothing | app/models/invite.server.ts:33-47 | a refused invitation raises its error and writes nothing |
| InviteModel.InviteWrites | app/models/invite.server.ts:11-21 | an invitation that passes the guards appends one row for this address and owner, created now and expiring seven days later, and touches no other table; it succeeds exactly when the e-mail is sent |
| InviteModel.RepeatInviteRefused | app/models/invite.server.ts:41-47 | inviting the same address again is refused as a duplicate, even when the first e-mail failed |
| InviteModel.NewInvitationListed | app/models/invite.server.ts:4-9 | a new invitation shows up in the owner's list and in the invitee's list |
| InvitationModel.Accept | app/models/invitation.server.ts:16-43 | finding the invitation, updating the user and then deleting the invitation leave the database and the error that `AcceptInvitation` gives |
| InvitationModel.Decline | app/models/invitation.server.ts:45-56 | deleting the invitation leaves the database and the error that `DeclineInvitation` gives |
| InvitationModel.AcceptEffect | app/models/invitation.server.ts:21-38 | accepting succeeds exactly when the invitation exists and a user has its address, whatever its expiry. On success that user joins the inviting team with the role unchanged, the invitation is removed, and nothing else changes. On failure nothing changes |
| InvitationModel.AcceptUnknown | app/models/invitation.server.ts:21-27 | an unknown id is reported by both calls and nothing changes |
| InvitationModel.AcceptTwiceFails | app/models/invitation.server.ts:25-38 | once an invitation is accepted, accepting or declining it again fails and changes nothing |
| InvitationModel.DeclineEffect | app/models/invitation.server.ts:45-51 | declining removes exactly that invitation and touches no user |
| InviteContractorRoute.Action | app/routes/invite-contractor.tsx:7-54 | the steps against the database leave the snapshot and the answer that `InviteAt` gives |
| InviteContractorRoute.GuardsChangeNothing | app/routes/_app.invite-contractor.tsx:11-20 | an unknown caller or one who is not a team owner gets 403; a team owner with no address gets 400; nothing changes in either case |
| InviteContractorRoute.ExistingUserFlagged | app/routes/_app.invite-contractor.tsx:23-36 | a registered address gets this owner as pending inviter and an unread flag; no invitation row is written and no other user changes; the write stays when the e-mail fails |
| InviteContractorRoute.NewAddressInvited | app/routes/invite-contractor.tsx:37-48 | an unregistered address gets one invitation row from this owner, expiring seven days after now, and no user changes |
| InviteContractorRoute.LastInviterWins | app/routes/invite-contractor.tsx:26-32 | when two owners invite the same registered user, the later one is the pending inviter |
| AcceptInvitationRoute.Loader | app/routes/accept-invitation.tsx:6-39 | an unknown user gives 404, and a pending inviter's e-mail wins over the route's invitation. Otherwise an absent parameter makes the query fail, an unknown invitation gives 400 "Invalid invitation", and a found one answers its team owner's e-mail |
| AcceptInvitationRoute.Action | app/routes/accept-invitation.tsx:41-83 | the update against the database leaves the snapshot and the answer that `Respond` gives |
| AcceptInvitationRoute.LoaderNeedsPendingInviter | app/routes/accept-invitation.tsx:6-39 | as mounted, with no invitation segment in the route, the page names an owner exactly for a known user with a pending inviter |
| AcceptInvitationRoute.AnswerEffect | app/routes/accept-invitation.tsx:56-75 | accepting sets exactly the user's team to the pending inviter's, the role to contractor and clears the pending invitation; rejecting only clears the pending invitation. Every other field, user and table stays as it was |
| AcceptInvitationRoute.AcceptWithoutPendingLeavesNoTeam | app/routes/accept-invitation.tsx:56-66 | accepting with no pending inviter still runs the update and leaves the user a contractor with no team |
| AcceptInvitationRoute.RefusedAnswerChangesNothing | app/routes/accept-invitation.tsx:47-78 | an unknown user or an action other than accept or reject gives an error and changes nothing |
| AcceptInvitationRoute.InviteThenAccept | app/routes/accept-invitation.tsx:56-66 | a registered user invited through invite-contractor who accepts ends up a contractor in the inviting owner's team |
| AcceptInvitationRoute.InvitedUserSeesOwner | app/routes/accept-invitation.tsx:19-26 | after invite-contractor flags a registered user, their page names the inviting owner's e-mail, whatever invitation id the route carries |
| BookingWidget.IsEmailIff | app/components/EmbeddableBookingWidget/EmbeddableBookingWidget.tsx:31 | the character-level test (no whitespace, one '@' that is not first, a '.' after it that is neither first nor last) accepts exactly the pattern's language |
| BookingWidget.EmailExamples | app/components/EmbeddableBookingWidget/EmbeddableBookingWidget.tsx:31 | "a@b.c" and "a@b..c" pass; addresses missing a part, with two '@' or with a space fail |
| BookingWidget.Payload | app/components/EmbeddableBookingWidget/EmbeddableBookingWidget.tsx:48-60 | the posted form has exactly the seven fields the handler appends |
| BookingWidget.PayloadAsBooking | app/components/EmbeddableBookingWidget/EmbeddableBookingWidget.tsx:53-60 | the endpoint reads the widget's form as a 60-minute booking for the widget's user, with a non-empty description, the accepted address as typed, and a missing address as the text "null" |
| BookingWidget.ButtonPostsAcceptedAddress | app/components/EmbeddableBookingWidget/EmbeddableBookingWidget.tsx:88-90 | when the submit button shows, the form it posts carries an address the pattern accepts |
| BookingWidget.EmbeddableBookingWidget.constructor | app/components/EmbeddableBookingWidget/EmbeddableBookingWidget.tsx:13-21 | nothing is selected, typed or posted yet |
| BookingWidget.EmbeddableBookingWidget.HandleDateSelect | app/components/EmbeddableBookingWidget/EmbeddableBookingWidget.tsx:24-27 | selecting a date always clears the selected time |
| BookingWidget.EmbeddableBookingWidget.HandleCustomerEmailChange | app/components/EmbeddableBookingWidget/EmbeddableBookingWidget.tsx:29-36 | the e-mail state becomes the input when it matches the pattern and is cleared otherwise, so it only ever holds an accepted address |
| BookingWidget.EmbeddableBookingWidget.HandleDescriptionChange | app/components/EmbeddableBookingWidget/EmbeddableBookingWidget.tsx:38-40 | only the description changes |
| BookingWidget.EmbeddableBookingWidget.HandleTimeSelect | app/components/EmbeddableBookingWidget/EmbeddableBookingWidget.tsx:42-44 | only the selected time changes |
| BookingWidget.EmbeddableBookingWidget.HandleSubmit | app/components/EmbeddableBookingWidget/EmbeddableBookingWidget.tsx:46-64 | one form is posted when a date and a time are chosen and nothing otherwise; every posted form asks for 60 minutes with this widget's key and user |
| CalendarPage.Loader | app/routes/_app.calendar.tsx:33-67 | an unknown user is an error; team owners and managers query their own events and those of the team looked up by their `teamOwnerId`; everyone else queries only their own |
| CalendarPage.InitialVisible | app/routes/_app.calendar.tsx:71-73 | the current user and every team member are visible, and no one else |
| CalendarPage.Toggle | app/routes/_app.calendar.tsx:78-84 | the toggled id's membership flips and every other id keeps its membership |
| CalendarPage.ToggleKeepsOthers | app/routes/_app.calendar.tsx:80-82 | the other ids keep their relative order |
| CalendarPage.ToggleTwiceAbsent | app/routes/_app.calendar.tsx:80-82 | toggling an absent id twice gives the list back |
| CalendarPage.ToggleTwicePresent | app/routes/_app.calendar.tsx:80-82 | toggling a present id twice moves it to the end, once |
| CalendarPage.FilteredEvents | app/routes/_app.calendar.tsx:86 | the result is the order-preserving subsequence of the events whose user is visible, each kept as many times as it occurs |
| CalendarPage.InitiallyAllShown | app/routes/_app.calendar.tsx:71-86 | before any toggle, every event of the current user or a team member is shown |
| CalendarPage.HidingRemovesOnlyThatUser | app/routes/_app.calendar.tsx:78-86 | hiding a user removes exactly that user's events and keeps the rest in order |
| CalendarPage.VisibleUsers.ToggleUserVisibility | app/routes/_app.calendar.tsx:78-84 | the state becomes the toggled list |
| CalendarPage.VisibleUsers.Shown | app/routes/_app.calendar.tsx:86 | the shown events are `FilteredEvents` of the component's visible users, so every one belongs to a visible user |

## Left out

- Time zones and date text. `new Date(date)`, ``new Date(`${date}T${time}`)``, `toISOString().split('T')[0]` and `formatInTimeZone` are not modelled. The available-times loader takes the instant of the requested day's midnight as a parameter. The create-booking action takes the start instant, or `None` for an invalid date, which makes the insert fail with 500.
- The ORM schema is not part of this model. Generated ids are natural numbers drawn from a counter, not cuid strings. Unique columns (`email`, `apiKey`) are looked up by first match, and the uniqueness of e-mails is a precondition where a lemma depends on it (`InviteModel.InviteRefusedIff`).
- `incrementUsage`, `getTeamMembers`, `getUserRoles` and `getEventsByUserIds` are called but not defined in the shown source. Here `incrementUsage` adds one use to every holder of the key. The team lookup is a function parameter of `CalendarPage.Loader`, and the roles are a parameter too.
- E-mail, Google and Apple Calendar, and Stripe are network side effects. Only their success or failure is modelled, as a boolean parameter.
- `generateApiKey` (app/utils/apiKey.server.ts:4-6) returns random bytes and is not modelled.
- Sessions and `requireUserId` are not modelled. The signed-in user's id is a parameter.
- Database errors other than the ones the source provokes itself are not modelled. These are the catch branches that answer 500 in app/routes/accept-invitation.tsx:79-82 and app/routes/invite-contractor.tsx:50-53. The ones the source provokes itself are modelled: an update or delete of a missing row, an invalid date, and a failed e-mail.
- Concurrency and atomicity are not modelled. The availability replace and the booking insert and increment are sequential steps with no transaction. No property about concurrent requests or double-booking prevention is claimed, because the code provides none.
- JavaScript number limits are not modelled. `parseInt` is modelled on unbounded integers, so texts beyond 2^53 and the exponent forms `Number` would accept are not captured.
- ProfileAvailability.FormatTime reads one- or two-digit hour and minute fields, as date-fns does for 'HH:mm'. Other leniencies of date-fns `parse`, such as trailing whitespace, are not modelled and give `None`.
- ProfileAvailability.AvailabilityManager.OnFetcherData merges into the current state. The source's effect reads the `availabilities` captured when the component last rendered, which is the same state unless a newer update has not rendered yet.
- AcceptInvitationRoute.Loader answers `OwnerEmail(None)` when the invitation's owner row is missing. The source reads a required relation there, so the foreign key makes that case unreachable. The route parameter is an optional number, not text. The page app/routes/accept-invitation.tsx has no `$invitationId` segment, and the dashboards navigate to `/accept-invitation` with no id. So the parameter is always absent, and a user with no pending inviter always gets the database client's error (`QueryRejected`); its exact status is not modelled.
- CreateBookingRoute.CreateBooking treats the booking's `contractor` relation as a required foreign key to the user table. The schema is not part of this model; `include: { contractor: true }` in app/models/booking.server.ts is what it rests on. An unknown `userId` therefore makes the insert fail before any write.
- InviteModel.CreateInvitation answers a failed e-mail with a fixed text of the model's own. `sendInvitationEmail` rethrows whatever error the mail transport raised (app/utils/email.server.ts:53-56).
- CalendarPage.Loader stops before the time-zone formatting of events. The events are represented by the list of user ids the query is given.
- Rendering, styling, routing, and the widget's commented-out fields (first name, last name, city, state, address) are not modelled.
- The two invite-contractor routes have the same action (lines 1-54 of each file), so it is modelled once. The `getInvitations` of app/models/invitation.server.ts is the same query as the one in app/models/invite.server.ts; its parameter is named `userId` but is matched against the e-mail column, and the model follows that.
