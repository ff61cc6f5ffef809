# SheSecure circles, invites, locations and SOS — a Dafny model

SheSecure is a personal-safety app. Users form circles: each circle has one leader, and other users join it with an invite code. Members share their last known location with each other. Any user can send an SOS, which is pushed and e-mailed to the people in their circles. This project models two things:

- the Express backend's handlers for circles, invites, locations and SOS (`backend/index.js`);
- the client-side checks of the registration screen (`screens/RegistrationScreen.js`).

It then proves properties of that model.

The backend is one object, `Backend.Database`. It holds the MySQL tables the handlers touch:

- `users`
- `circles`, with its AUTO_INCREMENT counter
- `circle_members`
- `invite_codes`
- `user_locations`
- `push_tokens`

Each state-changing handler is a method of that object. Each method returns the HTTP status and says what every table looks like afterwards.

- Every storage call that can fail takes a flag saying whether it fails. `/generateInviteCode` instead takes a fault naming the step at which its transaction stops.
- The caller's email is an input.
- The clock is an integer count of seconds.
- Latitude and longitude are an opaque type.
- The tables written only with `REPLACE INTO` (`user_locations`, `push_tokens`) are sequences of rows keyed by email (`KeyedTable`).

The read endpoints are functions over the tables, written the way their SQL joins and filters (`Queries`, `History`). Lemmas next to each one state what its result means. `/sendSOS` is built from the audience query and three loops in `Fanout`: the `forEach` that builds the message and e-mail lists, the sequential push-chunk loop and the mail loop. The handler method `Database.SendSOS` puts these together.

The model follows the code wherever the code does something other than what one might expect of such a system:

- **No history table.** `/updateLocation` only `REPLACE`s the caller's single row, and `/getLocationHistory` reads that same table. A "history" therefore holds at most the latest sample (`History.SecondUpdateReplacesFirst`).
- **Member circles only.** The audience of `/getCircleLocations` and `/sendSOS` comes only from circles the caller is a *member* of. The caller is not excluded. A caller who only leads circles alerts nobody (`Queries.LeaderOnlyHasNoAudience`).
- **Leaders can be hidden.** `/getCircleLocations` joins `circle_members` with an inner join. A leader who is a member of no circle is therefore never shown, even though `/sendSOS` alerts them (`Queries.UnjoinedLeaderIsHidden`).
- **History visibility.** `/getLocationHistory` shows a target only if the target is a *member* of a circle the requester is a member of. Otherwise it returns an empty result rather than an error.
- **Multi-use codes.** Invite codes are never consumed, and nothing checks new codes for collisions. A join uses the first row its SELECT returns that matches and has not expired. The model takes rows in insertion order, so an older colliding code wins (`InviteCodes.OlderInviteWins`); see "## Left out".
- **Duplicate joins.** Nothing in the code prevents them. The membership insert either appends a row or fails with 500.
- **AUTO_INCREMENT survives rollback.** A rolled-back `/generateInviteCode` leaves every table unchanged. If its circle insert had already run, the AUTO_INCREMENT value that insert took stays used, as MySQL does.

## Model

| member | source | states |
|---|---|---|
| `Registration.EmailCheckMatchesPattern` | screens/RegistrationScreen.js:31-36 | the check (no whitespace, exactly one `@` with something before it, a `.` after the `@` that is neither first nor last) accepts exactly the strings `^[^\s@]+@[^\s@]+\.[^\s@]+$` matches, `\s` being JavaScript's whitespace class |
| `Registration.StrengthLabel` | screens/RegistrationScreen.js:44-59 | the label is non-empty exactly for scores 0..4 |
| `Registration.StrengthLabelsDistinguishScores` | screens/RegistrationScreen.js:44-59 | scores 0..4 get five different labels; "Good"/"Strong" are shown exactly for the scores the register gate lets through |
| `Registration.HandleRegister` | screens/RegistrationScreen.js:61-84 | the request (name, email, password, without the confirmation) is sent iff strength >= 3 and password equals confirmation; an invalid email raises an alert and nothing else; the strength alert comes before (and instead of) the mismatch alert |
| `Registration.PressContinue` | screens/RegistrationScreen.js:27-29 | the button acts iff name, email, password and confirmation are all non-empty; a request sent has all four filled in, strength >= 3 and matching passwords |
| `Registration.EmailCheckDoesNotGate` | screens/RegistrationScreen.js:61-67 | whether a request is sent does not depend on which (non-empty) email is typed |
| `Registration.InvalidEmailStillRegisters` | screens/RegistrationScreen.js:61-70 | a concrete address the check rejects ("jane") is still sent to /register |
| `KeyedTable.Lookup` | backend/index.js:479 | the LEFT JOIN on push_tokens gives NULL exactly when the user has no row, otherwise a value stored for that user |
| `KeyedTable.Without` | backend/index.js:511 | the delete half of REPLACE keeps exactly the rows of other emails |
| `KeyedTable.ReplaceIsUpsert` | backend/index.js:511 | REPLACE leaves the key mapped to the new value, every other key's lookup unchanged, and keeps one row per email |
| `KeyedTable.LookupUnique` | backend/index.js:646 | with one row per email, any stored row for a key is the one a lookup finds |
| `Memberships.LeaveDropsOneCircle` | backend/index.js:496 | after the DELETE the caller's circles (`SELECT circle_id FROM circle_members WHERE member_email = ?`) lose exactly that circle; every other user's circles are unchanged |
| `Memberships.JoinAddsOneCircle` | backend/index.js:441 | after the membership INSERT the joining user's circles gain exactly that circle; every other user's circles are unchanged |
| `Memberships.DeleteMembership` | backend/index.js:496 | every (circle, caller) row is removed and every other row keeps its multiplicity |
| `Memberships.DeleteMembershipIdempotent` | backend/index.js:492-504 | leaving twice leaves the same rows as leaving once |
| `InviteCodes.GenerateCode` | backend/index.js:714-721 | the code has exactly 6 characters, each in A-Z or 0-9, and the i-th is the alphabet symbol of the i-th draw (different draws give different codes) |
| `InviteCodes.DrawsFor` | backend/index.js:714-721 | every 6-character A-Z0-9 string is produced by some six draws in 0..35 |
| `InviteCodes.FirstUsableInvite` | backend/index.js:430-440 | None iff no row has the code with `expires_at > now`; otherwise the circle of the first such row |
| `InviteCodes.ExpiredStaysExpired` | backend/index.js:430-437 | a code refused at some time is refused at every later time |
| `InviteCodes.OlderInviteWins` | backend/index.js:430-440 | a new row whose code collides with an older usable row does not change which circle that code admits to |
| `InviteCodes.NewInviteAdmits` | backend/index.js:382-403 | a fresh code with no usable older twin admits to its own circle exactly while `now < expires_at` |
| `Queries.UserCirclesAreLedOrJoined` | backend/index.js:456-461 | /getUserCircles returns exactly the circles the caller leads plus those with a membership row for the caller |
| `Queries.LeftCircleIsGone` | backend/index.js:492-504 | after leaving, the circle is among the caller's circles iff the caller leads it |
| `Queries.CircleMembersAreMembersAndLeader` | backend/index.js:475-481 | /getCircleMembers returns exactly the registered users with a membership row for the circle plus its leader, each with their name and push token or NULL |
| `Queries.EmptyCircleListsLeader` | backend/index.js:475-481 | a circle with no membership rows lists exactly its leader (when registered) |
| `Queries.JoinedUserIsListed` | backend/index.js:441 | after a membership insert the joined user appears in /getCircleMembers |
| `Queries.SosAudienceIsSharedCircles` | backend/index.js:583-590 | the SOS audience is exactly the registered users who are a member or the leader of a circle the caller is a member of, one row each with name and token |
| `Queries.CallerIsInOwnAudience` | backend/index.js:588-589 | the caller is not excluded: a registered caller with a membership is in their own audience |
| `Queries.LeaderOnlyHasNoAudience` | backend/index.js:588-589 | a caller with no membership rows has an empty audience, whatever circles they lead |
| `Queries.CircleLocationsAreScoped` | backend/index.js:525-533 | every location returned is a stored sample of a registered user who is a member or leader of a circle the requester is a member of |
| `Queries.CircleLocationsShowCircleMates` | backend/index.js:525-533 | every registered member of a circle the requester joined who has a stored sample is shown, with that circle's name |
| `Queries.UnjoinedLeaderIsHidden` | backend/index.js:528-532 | a user with no membership row never appears in /getCircleLocations |
| `Queries.LocationsWithinSosAudience` | backend/index.js:531-532 | everyone whose location the caller sees is in the caller's SOS audience |
| `History.JoinedCopies` | backend/index.js:551-553 | every row the join yields is a copy of the target's location row, and it yields one iff the target is a member of a stored circle the requester joined |
| `History.JoinedCopiesCount` | backend/index.js:551-554 | the join yields exactly as many copies as there are membership rows of the target in stored circles the requester is a member of |
| `History.HistoryRows` | backend/index.js:548-554 | every row is the target's and is a stored sample of the target; rows exist iff the target shares a joined circle and has a sample |
| `History.SortNewestFirst` | backend/index.js:555 | ORDER BY timestamp DESC: the same rows, newest first |
| `History.LocationHistoryIsScoped` | backend/index.js:544-564 | /getLocationHistory is newest-first, holds only the target's stored samples, and is non-empty iff requester and target are members of a common circle and the target has a sample; otherwise empty, not an error |
| `History.HistoryIsLatestSampleOnly` | backend/index.js:549-554 | with one row per user every returned row is the target's current sample |
| `History.SecondUpdateReplacesFirst` | backend/index.js:511 | after two location updates only the second sample can appear in the history |
| `Fanout.PushesFor` | backend/index.js:599-607 | the forEach builds at most one push message per audience row |
| `Fanout.PushesForContents` | backend/index.js:599-607 | each message carries the SOS text and the token of a row whose token is non-empty and passes the token check; every such row gets one |
| `Fanout.BuildFanout` | backend/index.js:597-609 | each audience row is visited once; there is one email per row, and the emails are exactly the audience's addresses; every message goes to the usable token of an audience row and every such token gets one, each carrying the SOS text |
| `Fanout.SendChunks` | backend/index.js:612-621 | every chunk is attempted, in order, whatever earlier chunks did; the failed ones are exactly those whose send threw |
| `Fanout.SendMails` | backend/index.js:624-634 | one mail per address with the SOS subject and text; failures are recorded, none stops the loop |
| `Fanout.EnumerationEmailsDistinct` | backend/index.js:597-609 | when rows are determined by their email, the email list has no repeats |
| `Backend.Database.GenerateInviteCode` | backend/index.js:378-423 | 200 iff no step fails; then exactly one new circle (fresh id, caller as leader) and one invite row for it expiring two days later, with a valid code returned; on any failure 500 and circles and invite codes unchanged; other tables never touched |
| `Backend.Database.JoinCircle` | backend/index.js:426-450 | 404 iff the lookup succeeds and no code matches unexpired; 200 iff a code matches and the insert succeeds, appending (its circle, caller); otherwise memberships unchanged; invite codes never change |
| `Backend.Database.LeaveCircle` | backend/index.js:492-504 | 200 unless the delete fails, even when no row matched; memberships become `DeleteMembership` of the old ones; nothing else changes |
| `Backend.Database.UpdateLocation` | backend/index.js:507-519 | upsert: the caller's sample becomes (lat, lon, now), other users' samples are unchanged, one row per user is kept |
| `Backend.Database.SavePushToken` | backend/index.js:642-654 | upsert: the caller's token becomes the new one, others unchanged, one token per user |
| `Backend.Database.SendSOS` | backend/index.js:567-639 | 500 if a query fails, 404 if the caller has no user row, otherwise 200 whatever is delivered; emails list each audience member once; messages are built only for usable tokens, so there are no more messages than emails; all push chunks and all mails are attempted |

## Left out

- Authentication and accounts are not modelled: `/register`, `/verify-email`, `/login`, `/forgot-password`, `/reset-password`, `/changePassword` and the JWT middleware. They rest on bcrypt, JWT and mail calls. The caller's email is an input, and `users` is given when the database is built.
- Profile, photo, email-update and chat endpoints are plain CRUD and file I/O; they are not part of this model. The profile photo URL is only read, by `/getCircleLocations`.
- Failing storage calls are flags; the read endpoints' own 500 branch is not modelled. On a failed query they answer 500 with no rows, and the functions here describe the successful query.
- SQL row multiplicity is dropped for `/getUserCircles`, `/getCircleMembers`, `/getCircleLocations` and the SOS audience. These results are sets, because a join can repeat a circle or a user. `/getLocationHistory` keeps multiplicity: its sequence holds one copy of the target's row per qualifying membership row (`History.JoinedCopiesCount`).
- Backend.Database.SendSOS: it emails, and pushes to, each audience user once. The SQL returns a user once per membership row of theirs that passes its WHERE clause. A member of several of the caller's circles comes back once per such circle, and that includes the caller. A leader of one of those circles comes back once per membership row of theirs, or once if they have none. The source sends that many emails and pushes.
- InviteCodes.FirstUsableInvite: codes are compared by exact string equality. MySQL compares them under the column's collation. The default collations ignore letter case, and the PAD SPACE ones also ignore trailing spaces, so the source may admit a lower-case `k7qx2a` for `K7QX2A` where the model answers 404. The table definitions are not part of this model. Every email comparison (`WHERE email = ?`, joins on email, the keys of `KeyedTable`) is likewise exact.
- InviteCodes.FirstUsableInvite: `result[0]` reads a SELECT without ORDER BY. The model takes the matching rows in insertion order. SQL does not promise that order.
- InviteCodes.OlderInviteWins: this holds only if MySQL returns the matching rows in insertion order. Otherwise a colliding newer code may admit to its own circle.
- Backend.Database.SendSOS: the message fields `sound` and `data`, and the JSON response bodies, are left out.
- Delivery is not modelled: `Expo.isExpoPushToken`, `expo.chunkPushNotifications`, `expo.sendPushNotificationsAsync` and nodemailer are foreign code. They are parameters, and nothing is assumed about the chunking.
- The asynchronous IIFE and the mail callbacks run in sequence here; concurrency and completion timing are not modelled.
- Fanout.BuildFanout: the order in which the database returns rows is unspecified, so the visiting order is left open, and it is exposed as a ghost result.
- InviteCodes.GenerateCode: `Math.random` is replaced by six given draws in 0..35.
- `new Date()` plus `setDate(+2)` is modelled as now + 172800 seconds on the same clock as SQL `NOW()`. Time zones and daylight-saving shifts are not modelled.
- Ids, tokens and coordinates arrive from JSON with no type check; the model gives them fixed types. `/savePushToken` with no `token` in the body stores NULL, which `Token` cannot represent.
- `circleId` arriving as a string is not modelled.
- Registration: the alerts' texts, the axios call, its response handling and the navigation are UI and are not modelled. The zxcvbn score is an input.
- Registration: the state lag of the `useEffect` that recomputes `isFormComplete` is not modelled. The gate is evaluated on the current field values.
