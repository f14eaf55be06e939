# Hostel management console: a Dafny model of its front-end rules

This project models the client-side logic of a hostel management web console.
Administrators use it to manage tenants, fees, rooms, maintenance issues and
testimonials. The model covers:

- **Authentication** (`Auth`): token lookup across the two web storages, the
  stored user, the bearer `Authorization` header, logout, the option merge of
  the authenticated fetch, and how it maps 401 and 403 responses to errors.
- **Login** (`Login`): the e-mail gate, plus the login retry loop. The loop
  posts again only when a request got no response, waiting one second and then
  two seconds.
- **Time-to-live caches** (`Ttl`): the read-through caches that the tenant,
  hostel, profile and testimonial screens keep in memory.
  - A fresh entry is served without a request.
  - A successful request stores its body with the time.
  - A failed or cancelled request writes nothing.
  - Unmounting or logging out clears the entries.
- **The request retry helper** (`Retry`), shared by the fees and maintenance
  screens. Authentication failures and non-transient errors are rethrown at
  once. Transient ones are retried with a wait after every failure.
- **Fees** (`Fees`): the query string of the tenant list request, and the
  reconciliation after a payment transaction is deleted. The tenant takes the
  status and due date of its newest remaining transaction.
- **Tenants** (`Tenant`):
  - the change handler with dotted field names and the "same address" checkbox;
  - the form validator;
  - the column sort toggle;
  - the room list offered in the tenant form.
- **Maintenance** (`Maintenance`): the issue form's change handler, its
  validator, reset, edit and submit.
- **Rooms and hostel details** (`Hostel`):
  - the room form handlers, including the sharing type that fixes the bed
    count and the bound on available beds;
  - the mappers between the backend and the form;
  - `addRoom`;
  - the hostel-details validator;
  - pagination.
- **The top bar** (`Topbar`): the profile cache, the upload guard, the forced
  re-fetch after an upload, and logout.
- **Testimonials** (`Feedback`): the "popular" selection (rating at least 4,
  highest first) and the choice of what to render.

**Modelling choices**
- JavaScript values that matter to the rules are the datatype
  `JsValues.JsValue`. Truthiness, `trim`, `parseInt`, `Number(...)`, loose
  `<=` and `===` are written out in `JsValues`.
- Number values held in records are integers. `Number(text)`, as used by
  the loose comparisons, reads decimal literals with a fraction or an
  exponent, `0x`/`0o`/`0b` integers and `Infinity` into `JsValues.Numeric`,
  a `real` or an infinity; text it cannot read is `NaN`.
- Web storages, the cache entries and form state are maps, records and
  classes.
- Whatever the browser or the server supplies is a parameter: responses, the
  current time, today's date, the e-mail validator and `JSON.parse`. A cache
  read takes two times: the one its freshness test reads before the request,
  and the one read after the response arrives, which is stored with the body.

**Behaviours of the code that the model keeps**
- `addRoom` computes an `Occupied`/`Available` status that the backend mapper
  then drops, so the status is never sent.
- An edit is addressed by the number stored in the room list, not the one
  typed into the form.
- When the bed count is empty, available beds accept only 0. This is because
  `0 <= ""` holds in JavaScript.
- A rent whose text is a number that is not positive (`0`, `-5`, `-1.5`,
  `0e0`) is refused. A rent that is not a number passes, because
  `Number("abc") <= 0` is false.
- Editing an issue whose stored date cannot be read selects the issue and
  then stops: `toISOString` throws before the form is filled or opened.
- A failed picture upload still blocks a second upload of the same file name.

## Model

| member | source | states |
|---|---|---|
| JsValues.TrimEmptyIffBlank | src/routes/Tenant/TenantInfo.jsx:335-337 | `trim()` yields "" exactly for all-whitespace text, and otherwise starts and ends with a non-space character |
| JsValues.ParseIntOfString | src/routes/Hostel/HostelInfo.jsx:403-409 | `parseInt` of the decimal text of any integer (negative ones included) gives that integer back, with radix 10 or no radix |
| JsValues.NumberOfIntegerText | src/routes/Tenant/TenantInfo.jsx:356 | `Number` of the decimal text of any integer is that integer |
| JsValues.NumberOfDecimalText | src/routes/Tenant/TenantInfo.jsx:356 | `Number` of a decimal literal with optional sign, fraction and exponent is its value with the sign |
| JsValues.DecimalAtMostZero | src/routes/Tenant/TenantInfo.jsx:356 | `v <= 0` holds for a decimal literal exactly when it has a minus sign or is zero |
| JsValues.ReplaceLeading | src/routes/Fees/FeesInfo.jsx:205-207 | `replace(pat, rep)` on text that starts with `pat` swaps just that prefix |
| Seqs.FilterKeepsOrder | src/routes/Tenant/TenantInfo.jsx:242-244 | `filter` keeps two passing elements in the order they had |
| Seqs.FilterCount | src/routes/Fees/FeesInfo.jsx:654-656 | `filter` keeps every element that satisfies the test, as often as it occurs, and drops every other |
| Seqs.SortDesc | src/components/UserFeedback.jsx:86-88 | sorting by `b.key - a.key` gives a permutation of the input in non-increasing key order |
| Seqs.SortDescStable | src/components/UserFeedback.jsx:86-88 | the sort is stable: the elements with any one key come out in their input order, so equally rated reviews and equally timed transactions keep the order they were fetched in |
| Ttl.ReadThrough | src/routes/Tenant/TenantInfo.jsx:132-170 | a request is made exactly when the entry is not servable (forced, empty, zero timestamp, or at least `maxAge` old); the entry is rewritten exactly when a request delivers a body, and is otherwise untouched |
| Ttl.FetchStoresBody | src/routes/Tenant/TenantInfo.jsx:157-162 | a delivered body is stored with the time its response arrived, and returned |
| Ttl.StoredIsServedWithinMaxAge | src/routes/Tenant/TenantInfo.jsx:135-162 | a body whose response arrived at time t is served without a request at every later time before t + maxAge |
| Ttl.ExpiredIsRefetched | src/routes/Tenant/TenantInfo.jsx:135-140 | an entry at least `maxAge` old always leads to a request |
| Ttl.FailureKeepsEntry | src/routes/Tenant/TenantInfo.jsx:163-169 | a failed request throws its message and a cancelled one returns undefined; neither writes the entry |
| Ttl.ClearedAlwaysRequests | src/routes/Tenant/TenantInfo.jsx:281-286 | a cleared entry is never served from the cache |
| Ttl.KeyedCache.constructor | src/routes/Tenant/TenantInfo.jsx:35-40 | the cache starts with an empty `{data, timestamp}` entry under each of its keys and the given maximum age |
| Ttl.KeyedCache.FetchWithCache | src/routes/Tenant/TenantInfo.jsx:132-170 | the read-through on one key: the request flag and the answer are those of `ReadThrough`, the key's entry becomes its entry and no other key changes |
| Ttl.KeyedCache.ClearAll | src/routes/Tenant/TenantInfo.jsx:281-286 | every entry becomes empty and the set of keys is kept |
| Retry.RetryRequest | src/routes/Fees/FeesInfo.jsx:90-125 | the loop's result, number of calls and number of waits are those of the recursive specification `Run` |
| Retry.RunShape | src/routes/Maintenance/MaintenanceInfo.jsx:48-82 | a run makes at most `maxRetries` calls; every call before the last was retryable; it stops early only at a result that is not retried; waits follow exactly the retried calls |
| Retry.FirstSuccessReturned | src/routes/Fees/FeesInfo.jsx:94-96 | the first success after retried failures is returned unchanged after exactly the calls up to it |
| Retry.AuthFailureStopsAtOnce | src/routes/Fees/FeesInfo.jsx:100-104 | an authentication message is rethrown after one call without waiting, even when it also names a transient cause |
| Retry.NonTransientStopsAtOnce | src/routes/Fees/FeesInfo.jsx:106-112 | an error with no transient substring is rethrown after one call without waiting |
| Retry.ExhaustedThrowsLastError | src/routes/Fees/FeesInfo.jsx:94-124 | when every call fails transiently the request is made `maxRetries` times, each followed by a wait, and the last error is thrown |
| Retry.NoRetriesThrowsUndefined | src/routes/Maintenance/MaintenanceInfo.jsx:48-82 | with `maxRetries` 0 nothing is called and `undefined` is thrown |
| Retry.AuthMessagesNotRetried | src/routes/Fees/FeesInfo.jsx:101-102 | the "Session expired" and "No authentication token found" messages count as authentication failures |
| Retry.TransientMessagesRetried | src/routes/Fees/FeesInfo.jsx:107-110 | the "No internet connection" and "timeout" messages count as transient |
| Retry.SlowServerMessageNotRetried | src/routes/Fees/FeesInfo.jsx:175-178 | the message thrown when a fee fetch is aborted, "Request timed out. Server is responding slowly.", holds none of the transient substrings (`includes` is case-sensitive and "timed out" is not "timeout"), so it is rethrown after one call without a wait |
| Fees.AppendOne | src/routes/Fees/FeesInfo.jsx:196-212 | one `append` adds one pair under its name, becomes that name's first value only if it had none, and changes no other name |
| Fees.TenantQuery | src/routes/Fees/FeesInfo.jsx:196-212 | `page` and `limit` are sent once each; `search` trimmed and only when non-blank; `room` without "Room " unless it is "Room 201", the initial choice, for which no room filter is sent and every room is listed; `month` and `year` together and only when both are set; no name twice |
| Fees.AddSearch | src/routes/Fees/FeesInfo.jsx:201-203 | only `search` gains a pair, the trimmed text, and only when the text is not blank |
| Fees.AddRoom | src/routes/Fees/FeesInfo.jsx:205-207 | only `room` gains a pair, the room without its prefix, unless the room is "Room 201": picking that room sends no filter and lists every room, while "Select Room" sends an empty `room` |
| Fees.AddPeriod | src/routes/Fees/FeesInfo.jsx:209-212 | `month` and `year` each gain a pair exactly when both are non-empty; other names are unchanged |
| Fees.Append | src/routes/Fees/FeesInfo.jsx:196-212 | `URLSearchParams.append`: the pair goes at the end; counts and first values change only under its name |
| Fees.RoomSentWithoutPrefix | src/routes/Fees/FeesInfo.jsx:205-207 | the choice "Room n" is sent as n |
| Fees.NewestFirst | src/routes/Fees/FeesInfo.jsx:660-663 | the tenant's remaining transactions, as a permutation, sorted by creation time, newest first |
| Fees.Newest | src/routes/Fees/FeesInfo.jsx:660-665 | absent exactly when the tenant has no transaction left; otherwise one of the tenant's transactions that none of its others postdates |
| Fees.HeadIsNewest | src/routes/Fees/FeesInfo.jsx:661-665 | the head of the sorted list is a transaction of the tenant with the greatest creation time |
| Fees.MembersOfTenant | src/routes/Fees/FeesInfo.jsx:661-663 | the sorted list holds exactly the tenant's transactions |
| Fees.RefreshTenants | src/routes/Fees/FeesInfo.jsx:668-679 | the list keeps its length; exactly the rows of the affected tenant are refreshed |
| Fees.OnDeleteTransaction | src/routes/Fees/FeesInfo.jsx:649-686 | a failed delete changes nothing; a successful one drops the transaction, refreshes the tenant from its newest remaining transaction, and deselects that tenant if it was selected |
| Fees.DeleteRemovesExactly | src/routes/Fees/FeesInfo.jsx:654-657 | after a delete no transaction with the deleted id remains, and every other keeps its multiplicity |
| Fees.DeleteKeepsOrder | src/routes/Fees/FeesInfo.jsx:654-656 | two transactions that survive a delete keep their relative order |
| Fees.DeleteOfAbsentIdKeepsAll | src/routes/Fees/FeesInfo.jsx:654-656 | deleting an id that no transaction carries leaves the list as it was |
| Fees.DeleteTouchesOneTenant | src/routes/Fees/FeesInfo.jsx:668-679 | other tenants' rows are unchanged, and the affected row keeps its id, name and room |
| Fees.RefreshedStatus | src/routes/Fees/FeesInfo.jsx:659-679 | the tenant's new status and due date are those of its newest remaining transaction ("Due" for an empty status, null for an empty or missing date), or "Due" with no due date when none remains |
| Tenant.NewCache | src/routes/Tenant/TenantInfo.jsx:35-40 | a fresh five-minute cache with empty entries for the tenant list, the hostel and the rooms |
| Tenant.TenantListAlwaysRequested | src/routes/Tenant/TenantInfo.jsx:132-170 | the tenant list, read with `forceRefresh`, is always requested |
| Tenant.HostelAndRoomsReusedForFiveMinutes | src/routes/Tenant/TenantInfo.jsx:135-140 | a stored hostel or room list is reused without a request exactly while it is younger than five minutes |
| Tenant.DotFrom | src/routes/Tenant/TenantInfo.jsx:295-296 | the position of the first dot from `i` on, or the end of the text |
| Tenant.SplitName | src/routes/Tenant/TenantInfo.jsx:295-296 | `name.split(".")` into object and field: the object is the text before the first dot, and the field is the whole segment after it, up to the next dot or the end |
| Tenant.HandleTenantChange | src/routes/Tenant/TenantInfo.jsx:291-325 | the "same address" flag changes only through its own checkbox |
| Tenant.DottedNameChangesOnlyThatField | src/routes/Tenant/TenantInfo.jsx:295-304 | a dotted name sets one member of one group and leaves every other key and member as they were |
| Tenant.SameAddressCopiesPermanent | src/routes/Tenant/TenantInfo.jsx:306-320 | the checkbox sets the flag; ticking it copies the permanent address over the current one, and unticking leaves the addresses alone |
| Tenant.SameAddressFlagUndotted | src/routes/Tenant/TenantInfo.jsx:295-310 | the checkbox's name has no dot, so it never takes the dotted branch |
| Tenant.TextInputSetsItsKey | src/routes/Tenant/TenantInfo.jsx:321-323 | an undotted input sets just its own key to the text typed |
| Tenant.TickedBoxCopiesStreet | src/routes/Tenant/TenantInfo.jsx:314-318 | after ticking the box, the current street equals the permanent street |
| Tenant.CheckField | src/routes/Tenant/TenantInfo.jsx:335-380 | one check of the validator fails exactly as the predicate `Fails` says |
| Tenant.Record | src/routes/Tenant/TenantInfo.jsx:335-337 | one check and its assignment: the key gains its fixed message exactly when its check fails, and no other key changes |
| Tenant.ValidateTenantForm | src/routes/Tenant/TenantInfo.jsx:328-390 | a name without `trim` throws with no error set; otherwise the `errors` object holds exactly the failing checks, each with the source's message, and the form is valid exactly when none fails |
| Tenant.CheckEssentials | src/routes/Tenant/TenantInfo.jsx:335-358 | adds exactly the failing name, contact, rent, room and date checks |
| Tenant.CheckAddresses | src/routes/Tenant/TenantInfo.jsx:361-367 | adds exactly the failing address checks |
| Tenant.CheckEmergencyContact | src/routes/Tenant/TenantInfo.jsx:370-380 | adds exactly the failing emergency-contact checks |
| Tenant.TrimmedEmptyIsBlank | src/routes/Tenant/TenantInfo.jsx:335-337 | the `!x?.trim()` test fails exactly for an absent or all-whitespace value |
| Tenant.SameAddressWaivesCurrentAddress | src/routes/Tenant/TenantInfo.jsx:365-367 | with the box ticked the current street is never required, and every other check is as without it |
| Tenant.RentOfIntegerText | src/routes/Tenant/TenantInfo.jsx:356-358 | a rent typed as the text of an integer is refused exactly when the integer is zero or negative |
| Tenant.RentOfDecimalText | src/routes/Tenant/TenantInfo.jsx:356-358 | a rent typed as a decimal literal, with or without fraction and exponent, is refused exactly when it has a minus sign or is zero |
| Tenant.NaNRentPasses | src/routes/Tenant/TenantInfo.jsx:356-358 | a rent that `Number` reads as `NaN` is never refused |
| Tenant.CoercedContactRefused | src/routes/Tenant/TenantInfo.jsx:343-345 | with `test` coercing its argument to text, a checkbox state ("true"/"false") or a nested object ("[object Object]") is refused as a contact: only text of exactly ten digits passes |
| Tenant.HandleSort | src/routes/Tenant/TenantInfo.jsx:684-692 | the clicked column becomes the sort field, with direction "asc" or "desc" |
| Tenant.SortDirectionRule | src/routes/Tenant/TenantInfo.jsx:686-689 | the direction is "desc" exactly when the same column was sorted ascending |
| Tenant.SortTogglesBack | src/routes/Tenant/TenantInfo.jsx:684-692 | two clicks on the current column restore a configuration whose direction is "asc" or "desc" |
| Tenant.NewColumnStartsAscending | src/routes/Tenant/TenantInfo.jsx:684-692 | a new column starts ascending and a second click makes it descending |
| Tenant.AvailableRooms | src/routes/Tenant/TenantInfo.jsx:241-250 | no room data offers nothing; otherwise every offered room is a fetched room with a free bed or, while editing, the tenant's own room |
| Tenant.OfferedInFetchedOrder | src/routes/Tenant/TenantInfo.jsx:242-249 | two offered rooms appear in the order in which they were fetched |
| Tenant.OfferedRooms | src/routes/Tenant/TenantInfo.jsx:242-249 | exactly the rooms with a free bed, plus, while editing, the tenant's own room |
| Tenant.NotEditingOnlyFreeRooms | src/routes/Tenant/TenantInfo.jsx:248 | outside editing every offered room has a free bed |
| Tenant.EditedTenantRoomKept | src/routes/Tenant/TenantInfo.jsx:242-245 | while editing, the tenant's own room is offered even when it is full |
| Maintenance.HandleIssueChange | src/routes/Maintenance/MaintenanceInfo.jsx:310-316 | the named field becomes the typed text and every other field is kept |
| Maintenance.ChangeBackRestores | src/routes/Maintenance/MaintenanceInfo.jsx:310-316 | typing a text field's old value back restores the form |
| Maintenance.TrimmedFalsy | src/routes/Maintenance/MaintenanceInfo.jsx:323-341 | `!x.trim()` throws exactly for a value without `trim`, and otherwise holds exactly for blank text |
| Maintenance.ValidateIssueForm | src/routes/Maintenance/MaintenanceInfo.jsx:319-349 | it throws exactly when a trimmed field is not text, with no error set; otherwise the errors are exactly the missing fields, and the form is valid exactly when it is complete |
| Maintenance.CheckTrimmed | src/routes/Maintenance/MaintenanceInfo.jsx:323-341 | one trimmed check: throws for a value without `trim`, and adds the field's error exactly when it is missing |
| Maintenance.RemarksAndAssigneeUnchecked | src/routes/Maintenance/MaintenanceInfo.jsx:319-349 | remarks and assignee never affect validity |
| Maintenance.CompleteMeansFilled | src/routes/Maintenance/MaintenanceInfo.jsx:319-349 | a complete form has non-blank text in the five trimmed fields and a truthy creation date |
| Maintenance.DefaultForm | src/routes/Maintenance/MaintenanceInfo.jsx:388-402 | the blank form: "Pending", "Medium", today's date, and "" elsewhere |
| Maintenance.ResetForm | src/routes/Maintenance/MaintenanceInfo.jsx:388-402 | the form returns to the defaults; errors, editing and selection are cleared; the modal and submitting flags are kept |
| Maintenance.ResetFormMissing | src/routes/Maintenance/MaintenanceInfo.jsx:388-402 | after a reset, exactly room, issue and requester are missing (and the date, if today's is empty) |
| Maintenance.HandleEditClick | src/routes/Maintenance/MaintenanceInfo.jsx:411-433 | the issue is always selected; if its date cannot be formatted nothing else changes; otherwise its fields are loaded, with the defaults for falsy ones and the formatted or today's date, editing is on and the modal opens |
| Maintenance.EditLoadsIssue | src/routes/Maintenance/MaintenanceInfo.jsx:411-433 | an issue whose fields are all non-empty text is loaded as it is, apart from the date |
| Maintenance.ResetAfterEditForgetsIssue | src/routes/Maintenance/MaintenanceInfo.jsx:388-433 | resetting after an edit forgets the issue: the screen is the one a reset before the edit gives, with the form modal open unless the date could not be formatted |
| Maintenance.SubmitForm | src/routes/Maintenance/MaintenanceInfo.jsx:352-385 | a throwing validator leaves the screen alone; an incomplete form only records its errors; a complete one sends an update when editing a selected issue and a create otherwise; success resets and closes, failure clears the errors, an exception sets the general error |
| Hostel.NewHostelCache | src/routes/Hostel/HostelInfo.jsx:48-52 | a fresh five-minute cache with empty entries for the hostel and its rooms |
| Hostel.HostelAlwaysRequested | src/routes/Hostel/HostelInfo.jsx:144 | the hostel, read with `forceRefresh`, is always requested and a delivered body stored |
| Hostel.RoomsReusedForFiveMinutes | src/routes/Hostel/HostelInfo.jsx:97-101 | stored rooms are reused without a request exactly while younger than five minutes |
| Hostel.BedsFor | src/routes/Hostel/HostelInfo.jsx:209-228 | the k-th sharing type fixes k + 1 beds; any other value leaves the bed count empty |
| Hostel.HandleRoomChange | src/routes/Hostel/HostelInfo.jsx:207-232 | choosing a type sets it and its bed count; any other field just takes the text typed |
| Hostel.HandleAvailableBedsChange | src/routes/Hostel/HostelInfo.jsx:234-239 | the typed count is kept only when it is between 0 and the bed count, and nothing else changes |
| Hostel.AvailableBedsBoundedBySharing | src/routes/Hostel/HostelInfo.jsx:207-239 | after choosing the k-th type, available beds accept exactly the counts 0 to k + 1 |
| Hostel.UnknownTypeAcceptsOnlyZero | src/routes/Hostel/HostelInfo.jsx:234-239 | with an empty bed count, only 0 is accepted |
| Hostel.ParsedNumber | src/routes/Hostel/HostelInfo.jsx:403-409 | `parseInt` of a number gives the same number |
| Hostel.BackendRoundTrip | src/routes/Hostel/HostelInfo.jsx:395-409 | a backend room with numeric counts survives the trip to the form and back |
| Hostel.TypedCountsParsed | src/routes/Hostel/HostelInfo.jsx:403-409 | counts typed as decimal text reach the backend as those integers |
| Hostel.OccupiedIffNoFreeBeds | src/routes/Hostel/HostelInfo.jsx:273-275 | the computed status is "Occupied" exactly when no bed is free |
| Hostel.MissingIffNotReady | src/routes/Hostel/HostelInfo.jsx:277-286 | the guard refuses exactly the rooms that are not ready |
| Hostel.AddRoom | src/routes/Hostel/HostelInfo.jsx:272-308 | an incomplete room is refused and nothing changes; an edit of a room that is gone does nothing; otherwise a create or an edit by the stored room number is sent and the form is reset |
| Hostel.EditIgnoresTypedNumber | src/routes/Hostel/HostelInfo.jsx:290-298 | an edit sends the same request whatever room number is typed |
| Hostel.ValidateHostelData | src/routes/Hostel/HostelInfo.jsx:187-193 | the details are valid exactly when every field except the category is truthy |
| Hostel.ZeroCountsRefused | src/routes/Hostel/HostelInfo.jsx:187-193 | a zero count is refused as if missing |
| Hostel.TotalPages | src/routes/Hostel/HostelInfo.jsx:388 | `Math.ceil(count / 10)`: the fewest pages of ten that hold the rooms |
| Hostel.DisplayedRooms | src/routes/Hostel/HostelInfo.jsx:389-392 | at most ten rooms: the page's slice of the list, and nothing past the last page |
| Hostel.FirstPagesPrefix | src/routes/Hostel/HostelInfo.jsx:388-392 | the first k pages, together, are the first 10k rooms |
| Hostel.PagesCoverRooms | src/routes/Hostel/HostelInfo.jsx:388-392 | all pages, together, are exactly the room list |
| Hostel.RoomOnItsPage | src/routes/Hostel/HostelInfo.jsx:388-392 | room i is on page i / 10 + 1, at position i % 10 |
| Topbar.ProfileBar.constructor | src/components/Topbar.jsx:53-57 | an empty five-minute cache, no profile and no upload yet |
| Topbar.ProfileBar.GetProfileData | src/components/Topbar.jsx:59-95 | the read-through on the profile cache; the profile shown is the answer, or unchanged on failure |
| Topbar.ProfileBar.HandleProfilePicChange | src/components/Topbar.jsx:101-115 | an upload starts exactly for a chosen file whose name differs from the last one, and the name is recorded at once |
| Topbar.ProfileBar.UpdateUserImage | src/components/Topbar.jsx:117-142 | an accepted upload always re-fetches and stores the profile delivered, stamped with the time it arrived; otherwise nothing changes |
| Topbar.ProfileBar.HandleLogout | src/components/Topbar.jsx:146-153 | the cache entry the profile reads becomes empty; nothing else changes |
| Topbar.ProfileServedIff | src/components/Topbar.jsx:64-70 | the cached profile is served, without a request, exactly when it is set, unforced and younger than five minutes |
| Topbar.FailedFetchWritesNothing | src/components/Topbar.jsx:72-94 | a failed profile request neither writes the cache nor changes the profile shown |
| Login.LoginForm.constructor | src/routes/Login.jsx:15-19 | the form starts empty, not loading, with no token cookie |
| Login.LoginForm.OnHandleFormSubmit | src/routes/Login.jsx:31-39 | an address the validator refuses shows "Invalid Email" and posts nothing; any other runs the login |
| Login.LoginForm.LoginUser | src/routes/Login.jsx:41-90 | the posts made are those of `Posts`; the k-th retry waits 1000 k ms; the final message is that of the last post; success clears the fields and sets a six-hour secure strict cookie, anything else keeps them |
| Login.PostsShape | src/routes/Login.jsx:71-77 | at most three posts; every post but the last got no response; an early stop happens only at a post that got an answer |
| Login.ServerErrorNotRetried | src/routes/Login.jsx:66-70 | a server error ends the login at that post and shows the server's message |
| Login.ExhaustedShowsConnectionFailed | src/routes/Login.jsx:71-79 | three posts without a response end with the connection-failure message |
| Feedback.Popular | src/components/UserFeedback.jsx:86-88 | only reviews rated 4 or more, highest rating first |
| Feedback.PopularIsExactlyHighRated | src/components/UserFeedback.jsx:86-88 | the popular list holds exactly the reviews rated 4 or more, each as often as received |
| Feedback.EmptyIffNoHighRating | src/components/UserFeedback.jsx:86-88 | nothing is shown exactly when no review is rated 4 or more |
| Feedback.FeedbackReusedForFifteenMinutes | src/components/UserFeedback.jsx:67-74 | stored reviews are reused without a request exactly while younger than fifteen minutes |
| Feedback.SelectView | src/components/UserFeedback.jsx:122-144 | spinner while loading, then the error text, then the empty message, then the slider of reviews |
| Feedback.FeedbackView.constructor | src/components/UserFeedback.jsx:20-24 | an empty fifteen-minute cache, loading, no error and no reviews |
| Feedback.FeedbackView.FetchCustomerFeedback | src/components/UserFeedback.jsx:64-109 | the read-through on the review cache, storing only the popular reviews, stamped with the time the response arrived; a failure sets the load error and keeps cache and list |
| Feedback.ViewAfterFetch | src/components/UserFeedback.jsx:122-144 | after a fetch the slider shows the popular reviews, or the empty message when there are none; after a failure the error text |
| Auth.Candidates | src/Authentication.jsx:4-13 | the eight token slots: the four keys in localStorage, then the same keys in sessionStorage |
| Auth.OrChainFirst | src/Authentication.jsx:4-13 | an `||` chain yields a truthy value exactly when some operand is truthy, and then the first one |
| Auth.TokenIsFirstFilledSlot | src/Authentication.jsx:4-13 | a token is found exactly when a slot is non-empty, and it is the first non-empty slot in lookup order |
| Auth.LocalWins | src/Authentication.jsx:4-13 | a token in localStorage hides every token in sessionStorage |
| Auth.GetUser | src/Authentication.jsx:16-24 | a user is returned only when one is stored in one of the storages |
| Auth.LocalUserPreferred | src/Authentication.jsx:16-24 | the localStorage user is the one parsed when present |
| Auth.SessionUserFallback | src/Authentication.jsx:17-18 | without a localStorage user the sessionStorage user is parsed; with neither there is no user |
| Auth.AuthenticatedIff | src/Authentication.jsx:27-31 | authenticated exactly when some token slot is filled and the stored user parses |
| Auth.GetAuthHeaders | src/Authentication.jsx:34-49 | the JSON content type is always sent; `Authorization` exactly when a token is found; no other header |
| Auth.BearerCarriesToken | src/Authentication.jsx:34-49 | the `Authorization` value is "Bearer " followed by exactly the token found |
| Auth.WebStorage.constructor | src/Authentication.jsx:52-68 | the two storages hold the given entries |
| Auth.WebStorage.Logout | src/Authentication.jsx:52-68 | the five auth keys leave both storages, and every other entry stays |
| Auth.RemoveAuthItems | src/Authentication.jsx:52-68 | the five `removeItem` calls remove exactly the auth keys |
| Auth.LoggedOutIsAnonymous | src/Authentication.jsx:52-68 | after logout no token is found, the user is not authenticated and no `Authorization` header is sent |
| Auth.MergeOptions | src/Authentication.jsx:85-99 | the caller's options and headers override the defaults key by key; all other defaults are kept |
| Auth.CallerHeadersKeepDefaults | src/Authentication.jsx:85-99 | caller headers that do not name them keep the content type and the bearer token |
| Auth.MapStatus | src/Authentication.jsx:104-124 | 401 and 403 become thrown errors with their messages; every other status is returned as it is |

## Left out

- Network requests, toasts, navigation, cookie reading, file reading and the rendered markup are not modelled. Responses, upload acceptance and the chosen file's name are parameters.
- The current time, today's date and the formatted date of an issue are parameters. Date arithmetic and formatting are not modelled.
- Timers are not modelled: the debounce, the backoff delays of `Retry` (only their number is counted) and the login delays (their lengths are recorded, no waiting happens).
- Number values held in records are integers. `NaN` arithmetic and floating-point rounding are not modelled. The cookie's fractional expiry is a `real`.
- `JsValues.StringToNumber`: exponent overflow and underflow are not modelled. A decimal literal gets its exact value, so `1e400` is finite and `1e-400` is positive, where JavaScript gives `Infinity` and 0.
- Concurrency, unmounting during a request and request cancellation are not modelled, beyond the `Cancelled` response of `Ttl`.
- `Ttl.ReadThrough`: a response body is stored even when it is falsy. The code would also do that, but would then treat the entry as empty on the next read.
- `Tenant.HandleTenantChange`: spreading a group that is not an object is taken as an empty group.
- `Tenant.ValidateTenantForm` reads the form through the projection `Inputs`. Keys that the validator never reads are not carried.
- `JSON.parse` (in `Auth.GetUser`) and `validator.isEmail` (in `Login`) are function parameters. Their own behaviour is not modelled.
- `Maintenance.HandleIssueChange` accepts only the eight form field names. An input with another name, which would add a new key, is not modelled.
- `Login.LoginForm.LoginUser` records only the state at the end. The intermediate states before each post (message cleared, loading set) are not kept.
- `Auth.GetAuthHeaders`: the token is not checked against the token syntax of section 2.1 of RFC 6750.
- `Topbar.ProfileBar.HandleLogout`: the model does not capture that logout, as written, misses the cache the profile is read from. The code builds a new cache object on every render. `getProfileData` is memoized with `useCallback(…, [])`, so it keeps reading the object of the first render. `handleLogout` is re-created on every render and nulls the object of the latest render, which no profile read uses. The model keeps one cache per bar, shared by the reads and by logout, so its logout empties the entry later reads see, as the comment at line 148 of src/components/Topbar.jsx intends.
- The dashboard shell (src/routes/InnerDashboard.jsx) is not part of this model.
- The hostel page's list step after a room fetch is not modelled: `fetchRooms` sets the rooms to the fetched list mapped through `mapBackendRoomToFrontend`, or to `[]` when nothing came back (src/routes/Hostel/HostelInfo.jsx:126-131). Nor is `fetchHostel`'s `setHostel(data)` or `setHostel(null)` (lines 145-150 of the same file). Both fetches are modelled only through the cache (`Hostel.RoomsReusedForFiveMinutes`). The per-room conversions themselves are modelled (`Hostel.ToFrontend`, `Hostel.ToBackend`).
- Sorting of the tenant table by the chosen column is not modelled. Only the toggle of the sort configuration (`Tenant.HandleSort`) is.
- The fees page's other handlers (pagination, filters, payment modal) are not part of this model, beyond the query they feed.
