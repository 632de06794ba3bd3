# Gallery and upload page, modelled in Dafny

This project models the client-side bookkeeping of a small portfolio site's
two admin-facing React components.

**The gallery** (`MyDetails`) lists the fetched `descriptions` records. It works as follows:
- It hides them behind an "Access Restricted" notice unless the visitor is an admin or opened a `?share=<id>` link.
- A share link narrows the list to the record whose id has that decimal text.
- The admin's unshared view is cut into pages of four with a numbered pager.
- Each record with more than one image gets an image carousel. Its cursor per record id moves with arrow buttons or a horizontal swipe of at least 50 px, and wraps round at both ends.

**The upload page** (`Upload`) works as follows:
- It admits only a signed-in user whose `profiles` lookup succeeds with the role `"admin"`.
- It keeps four text fields and a list of picked files. The priority field keeps only the digits typed.
- `handleUpload` first checks the fields and the file list. It then stores one description row and uploads the files one at a time, advancing a counter shown as a progress bar. Each uploaded file gets an `image_urls` row.
- It alerts success or failure, clears the form on success only, and resets `loading` and the counter in every case.

Modules:

- `Wrappers`: `Option`.
- `Numbers`: `n.toString()` for ids and `Number(text)` for digit strings, with their round trip.
- `Access`: the two admin decisions. The gallery's reads only the looked-up role; the upload page's also tests the lookup's error.
- `ShareLink`: the share URL, the part of `URLSearchParams.get` the page relies on, and the round trip from id to link to `sharedId`.
- `GalleryView`: the pure expressions of the gallery (access gate, share filter, page count, slicing, pager buttons) and the partition of the list into pages.
- `Carousel`: the `activeIndex` map, next and previous with wrap-around, and the swipe rule.
- `GalleryBrowser`: the gallery component as a class. Its state fields are updated by the events (auth check, fetch, pager, arrows, touches), and `Render` states what the component returns.
- `UploadRules`: the pure rules of the upload page. It covers:
  - removing a file by index;
  - the priority sanitiser and `finalPriority`;
  - the progress percentage;
  - the specification of one press of "Upload". That specification is the log of calls on the outside world (`RunEffects`) and the sequence of counter values (`RunProgress`).
- `UploadPage`: the upload component as a class. Its form, `loading` and counter fields are changed by methods. `HandleUpload` runs the per-file `while` loop (`UploadFiles`) and is proved against `RunEffects` and `RunProgress`.

The outside world enters as parameters:
- the session and the role lookup (`Session`);
- the fetched list, or `None` when the query failed;
- the id of the inserted description, or `None` when the insert failed;
- one `FileReply` per picked file.

The calls the page makes are recorded in the ghost log `effects`. Every value the upload counter takes is recorded in `progress`.

## Model

| member | source | states |
|---|---|---|
| Numbers.DecimalString | src/sections/MyDetails.jsx:117 | an id's `toString()` text is non-empty and all digits, and starts with `0` only for the id 0 |
| Numbers.DigitsValueOfDecimal | src/pages/Upload.jsx:104 | `Number` of the text `toString` writes for `n` is `n` again |
| Numbers.DecimalStringInjective | src/sections/MyDetails.jsx:117 | two ids have the same text exactly when they are the same id |
| Numbers.LeadingZeroIgnored | src/pages/Upload.jsx:104 | `Number` of a digit string is unchanged by a leading `0` |
| Access.GalleryAdmin | src/sections/MyDetails.jsx:51-63 | the gallery sees an admin only for a session whose looked-up role is `"admin"` |
| Access.UploadAccess | src/pages/Upload.jsx:33-45 | upload access needs a session, a role lookup without error, and the role `"admin"`; it implies the gallery's admin decision |
| Access.UploadAccessIsStricter | src/pages/Upload.jsx:33-45 | upload access holds exactly when the gallery would see an admin and the role lookup did not fail; no session grants neither |
| ShareLink.FirstValue | src/sections/MyDetails.jsx:15-18 | the parameter lookup finds a value exactly when some non-empty `&`-separated pair has that name, and the value found is that of the first such pair |
| ShareLink.SearchParam | src/sections/MyDetails.jsx:15-18 | an empty query string, or a bare `?`, has no parameter |
| ShareLink.SharedIdFrom | src/sections/MyDetails.jsx:38-39 | the mount effect sets `sharedId` to the `share` value exactly when that value is present and non-empty, and leaves it unset otherwise |
| ShareLink.SearchOf | src/sections/MyDetails.jsx:16 | the search part of a URL never holds `#`, starts with `?` when non-empty, and is empty for a URL without `?` |
| ShareLink.SearchOfShareUrl | src/sections/MyDetails.jsx:173-174 | for an origin without `?` or `#`, the search part of the copied link is `?share=` followed by the id's text |
| ShareLink.ShareQueryGivesDigits | src/sections/MyDetails.jsx:15-18 | reading `share` from `?share=<digits>` gives those digits |
| ShareLink.ShareLinkRoundTrip | src/sections/MyDetails.jsx:173-174 | opening the link `handleShare` copies for `id` makes `sharedId` exactly the text of `id` |
| GalleryView.FilterById | src/sections/MyDetails.jsx:116-118 | a record is in the filtered list exactly when it is in the data and its id's text equals the share id; the list never grows |
| GalleryView.FilterByIdDistributes | src/sections/MyDetails.jsx:116-118 | filtering keeps the original order: filtering a concatenation concatenates the filtered parts |
| GalleryView.SharedIdSelectsRecord | src/sections/MyDetails.jsx:116-118 | with distinct ids, the share id of a listed record filters the list down to exactly that record |
| GalleryView.FilteredData | src/sections/MyDetails.jsx:116-118 | without a share id the list is unchanged; with one it holds exactly the listed records whose id text matches, and never grows |
| GalleryView.SharedIdWithoutMatch | src/sections/MyDetails.jsx:116-118 | a share id no record has gives the empty list |
| GalleryView.TotalPages | src/sections/MyDetails.jsx:121 | the page count is the ceiling of the length over 4: the pages hold all records and the last page is not empty |
| GalleryView.Slice | src/sections/MyDetails.jsx:125-128 | `slice` clamps the end to the list and is empty when the start is past the end or past the list; the kept elements are those from `start` on |
| GalleryView.PaginatedData | src/sections/MyDetails.jsx:123-128 | a shared or non-admin view shows the whole filtered list; the admin's unshared view shows at most 4 records, all from the filtered list |
| GalleryView.PagesPartition | src/sections/MyDetails.jsx:121-128 | pages 1 to `totalPages` read one after the other give the filtered list back, and each holds 1 to 4 records |
| GalleryView.PageAfterLastIsEmpty | src/sections/MyDetails.jsx:123-128 | a page number past the last page shows no records rather than failing |
| GalleryView.PageButtons | src/sections/MyDetails.jsx:301-313 | the pager has one button per page, numbered 1 to `totalPages` in order |
| GalleryView.PageButtonsLeadToRecords | src/sections/MyDetails.jsx:299-313 | every pager button selects a page with at least one record |
| Carousel.StepForward | src/sections/MyDetails.jsx:131-136 | `nextImage` adds or updates only the record's key, leaves every other cursor alone, advances by one before the last image, wraps the last to 0, and stays below the image count |
| Carousel.StepBack | src/sections/MyDetails.jsx:138-143 | `prevImage` changes only the record's key, and from a cursor within the images it stays below the image count |
| Carousel.StepBackUndoesStepForward | src/sections/MyDetails.jsx:131-143 | previous after next restores the cursor, and the whole map when the record already had one |
| Carousel.StepForwardUndoesStepBack | src/sections/MyDetails.jsx:131-143 | next after previous restores the cursor, and the whole map when the record already had one |
| Carousel.StepsForwardFrame | src/sections/MyDetails.jsx:131-136 | repeated next presses on one record add at most that record's key and leave every other record's cursor alone |
| Carousel.StepsForwardClimb | src/sections/MyDetails.jsx:131-136 | before the wrap-around, `k` presses move the cursor `k` images on |
| Carousel.StepsForwardWrap | src/sections/MyDetails.jsx:131-136 | from image `c`, `length - c` presses bring the carousel to the first image |
| Carousel.StepsForwardPastWrap | src/sections/MyDetails.jsx:131-136 | past the wrap-around, the cursor after `k` presses is `c + k - length` |
| Carousel.FullTurnCursor | src/sections/MyDetails.jsx:131-136 | as many presses as images bring the cursor back to the image it showed |
| Carousel.FullTurnReturns | src/sections/MyDetails.jsx:131-136 | as many presses as images give back the same map when the record already had a cursor |
| Carousel.SwipeOf | src/sections/MyDetails.jsx:154-159 | a touch moving less than 50 px either way does nothing; at least 50 px leftwards is next and at least 50 px rightwards is previous |
| Carousel.ShownImage | src/sections/MyDetails.jsx:231-251 | the card shows the image at the record's cursor (0 when it has none), and no image when the cursor is past the list |
| GalleryBrowser.CardOf | src/sections/MyDetails.jsx:231-286 | a card has arrows and swipe handlers exactly when its record has more than one image, a share button exactly for an admin, and shows the cursor's image |
| GalleryBrowser.MyDetails.constructor | src/sections/MyDetails.jsx:21-43 | the first state: loading, checking auth, not admin, page 1, no cursors, and `sharedId` read from the query string |
| GalleryBrowser.MyDetails.CheckAuth | src/sections/MyDetails.jsx:46-65 | the check ends with `isAdmin` set to the gallery's admin decision for the session |
| GalleryBrowser.MyDetails.FetchDetails | src/sections/MyDetails.jsx:68-84 | a successful fetch replaces the list, a failed one keeps the old list, and loading ends either way |
| GalleryBrowser.MyDetails.SelectPage | src/sections/MyDetails.jsx:304 | a pager button sets the current page to its number |
| GalleryBrowser.MyDetails.NextImage | src/sections/MyDetails.jsx:131-136 | the arrow replaces the cursor map by the `nextImage` step |
| GalleryBrowser.MyDetails.PrevImage | src/sections/MyDetails.jsx:138-143 | the arrow replaces the cursor map by the `prevImage` step |
| GalleryBrowser.MyDetails.TouchStart | src/sections/MyDetails.jsx:146-148 | the touch start records its horizontal position |
| GalleryBrowser.MyDetails.TouchMove | src/sections/MyDetails.jsx:150-152 | each touch move records the latest horizontal position |
| GalleryBrowser.MyDetails.TouchEnd | src/sections/MyDetails.jsx:154-159 | the touch end applies to the cursors exactly the swipe decided from the recorded start and end |
| GalleryBrowser.RestrictedExactly | src/sections/MyDetails.jsx:103-113 | the restricted notice is rendered exactly when the auth check is over, the visitor is not an admin and there is no share id |
| GalleryBrowser.AdminSeesCurrentPage | src/sections/MyDetails.jsx:120-128 | an admin without a share id sees the current page of the whole list, and the pager only when there is more than one page |
| GalleryBrowser.PagerShownExactly | src/sections/MyDetails.jsx:298-315 | a loaded gallery shows page buttons exactly for an admin without a share id whose list fills more than one page |
| GalleryBrowser.AdminPagerLeadsToRecords | src/sections/MyDetails.jsx:298-315 | each pager button an admin sees leads to a page with records |
| GalleryBrowser.ShareLinkShowsOnlyItsRecord | src/sections/MyDetails.jsx:115-128 | opening a listed record's share link renders that one record and no pager, for any visitor |
| GalleryBrowser.UnknownShareIdShowsNothing | src/sections/MyDetails.jsx:116-118 | a share id naming no record renders an empty gallery with no pager |
| GalleryBrowser.WholeListWhileCheckingAuth | src/sections/MyDetails.jsx:103-128 | while the auth check is pending, a loaded gallery without a share id renders the whole list, unpaged and without share buttons |
| UploadRules.KeepOthersCuts | src/pages/Upload.jsx:85 | the index filter applied to a suffix cuts out exactly the element whose absolute position is the index |
| UploadRules.RemoveAtSpec | src/pages/Upload.jsx:83-86 | removing by index drops exactly that file and keeps the others in order; an out-of-range index changes nothing |
| UploadRules.Sanitize | src/pages/Upload.jsx:232-233 | the stored priority holds exactly the digits that were typed (a character is kept iff it is a digit of the input) and is no longer than the input |
| UploadRules.SanitizeDistributes | src/pages/Upload.jsx:233 | the digit filter keeps the typed order: filtering a concatenation concatenates the filtered parts |
| UploadRules.SanitizeKeepsDigits | src/pages/Upload.jsx:233 | text made only of digits is kept unchanged |
| UploadRules.SanitizeIdempotent | src/pages/Upload.jsx:233 | filtering twice is filtering once |
| UploadRules.FinalPriorityReadsNumber | src/pages/Upload.jsx:104 | the stored priority is the number typed: the text of `n` gives `n`, the empty field 0, and a leading zero is ignored |
| UploadRules.ProgressPercentBounds | src/pages/Upload.jsx:163-168 | the bar is within 0..100 and is full exactly when at least 99.5% of the files are under way, which for fewer than 200 files means the last file |
| UploadRules.ProgressPercentMonotone | src/pages/Upload.jsx:163-168 | the bar never moves back as the counter goes up |
| UploadRules.Validate | src/pages/Upload.jsx:90-98 | the upload proceeds exactly when name, type and description are non-empty and files are picked; the missing-files alert fires exactly when only the files are missing |
| UploadRules.FirstThrow | src/pages/Upload.jsx:122-145 | the loop stops at the first file whose upload throws: every earlier file got an answer and that one threw |
| UploadRules.RunWhenDescriptionFails | src/pages/Upload.jsx:100-160 | a failed description insert logs the insert and the failure alert, counts 0 then 0, and is not a success |
| UploadRules.RunWhenFileThrows | src/pages/Upload.jsx:100-160 | a file upload that throws logs the earlier files, the throwing post and the failure alert, counts up to that file then 0, and is not a success |
| UploadRules.RunWhenAllUploaded | src/pages/Upload.jsx:100-160 | uploading every file logs every file's post and row and the success alert, counts 1 to n then 0, and is a success |
| UploadRules.FileEffectsRows | src/pages/Upload.jsx:122-145 | the uploaded files are posted in order, each exactly once, with one `image_urls` row each, carrying the description id and that file's URL |
| UploadRules.SuccessfulRunOneRowPerFile | src/pages/Upload.jsx:107-147 | a successful press inserts the description first, posts every picked file once in order, writes one row per file for that one description, and ends with the success alert |
| UploadRules.RejectedRunOnlyAlerts | src/pages/Upload.jsx:90-98 | a press the guards stop raises only its alert, stores and uploads nothing, and never moves the counter |
| UploadRules.ProgressCountsFiles | src/pages/Upload.jsx:100-159 | during a press the counter starts and ends at 0, counts 1, 2, ... one per file attempted (n+2 values on success), stays within the file count, and keeps the bar within 0..100 |
| UploadPage.Upload.constructor | src/pages/Upload.jsx:8-20 | the first state: checking access, no access, empty form, not loading, counter 0 |
| UploadPage.Upload.CheckAccess | src/pages/Upload.jsx:28-47 | the check ends with `hasAccess` set to the upload access decision for the session |
| UploadPage.Upload.Screen | src/pages/Upload.jsx:52-80 | the form is shown exactly when the check is over and access was granted |
| UploadPage.Upload.SetImageName | src/pages/Upload.jsx:184-185 | the name input, enabled only when idle, changes only the name |
| UploadPage.Upload.SetImageType | src/pages/Upload.jsx:193-194 | the type select, enabled only when idle, changes only the type |
| UploadPage.Upload.SetDescription | src/pages/Upload.jsx:222-223 | the description input, enabled only when idle, changes only the description |
| UploadPage.Upload.SetPriority | src/pages/Upload.jsx:230-235 | the priority input stores the digits of what was typed and keeps the form valid |
| UploadPage.Upload.SelectFiles | src/pages/Upload.jsx:241-255 | the file picker, usable only when idle, replaces the file list |
| UploadPage.Upload.RemoveFile | src/pages/Upload.jsx:83-86 | removing a file does nothing while loading and otherwise removes the file at that index |
| UploadPage.Upload.UploadFiles | src/pages/Upload.jsx:122-145 | the loop returns the index of the first throwing upload; it logs each earlier file's post and row, plus the throwing post, and leaves the counter on the last file attempted |
| UploadPage.Upload.RunUpload | src/pages/Upload.jsx:100-160 | the `try`/`catch`/`finally` after the guards performs exactly the press's specified calls and counter values, clears the form only on success, and ends idle with the counter at 0 |
| UploadPage.Upload.HandleUpload | src/pages/Upload.jsx:89-161 | one press performs exactly `RunEffects` and `RunProgress` for the form and the services' answers, clears the form exactly when the run succeeded, and ends idle with the counter at 0 |
| UploadPage.PercentInRange | src/pages/Upload.jsx:163-168 | the progress bar of an idle or running form is within 0..100, and 0 without files |

## Left out

- The Supabase queries, the image host's HTTP upload and the auth session are network I/O. Their answers are parameters: the session and role lookup, the fetched list, the description id, and one reply per file.
- `UploadPage.Upload.HandleUpload` requires exactly one reply per picked file. The source has no such demand; the replies stand in for the network.
- The calls the page makes are a ghost log of `Effect`s. The request bodies are left out: `FormData`, the upload preset and the host URL.
- The `created_on: Date.now()` timestamps and the list's `created_on` ordering are left out. The clock is not modelled, and the fetched list is taken in the order it arrives.
- The `image_urls` insert's own error is never checked by the page. The model likewise always goes on to the next file after it.
- A missing `secure_url` becomes `None`; the page inserts `undefined` there.
- `console.error`, `alert` display, the toast and its `setTimeout` are browser side effects and timers. They are left out. `alert` appears only as an `Alert` effect carrying its message.
- The clipboard writes (`handleCopy`, `handleShare`), the three `window.open` buttons and the scroll-to-shared-card layout effect are browser side effects and timers. They are left out.
- The share URL is modelled as a string. Copying it is not modelled.
- `UploadPage.Upload.HandleUpload` runs a whole press as one step. React's batching of state updates between `await`s is not modelled. Neither is any event that could arrive while a press is in flight, although the inputs are disabled and `removeFile` is guarded then.
- `UploadRules.ProgressPercent` computes `Math.round(cur / n * 100)` in exact integer arithmetic as `(200*cur + n) / (2*n)`, rounding half up. Floating-point rounding error is not modelled. In exact arithmetic the bar already shows 100% on the last-but-one file once there are 200 files or more; `ProgressPercentBounds` states this exactly.
- `UploadRules.FinalPriority` is exact for digit strings of any length. JavaScript's `Number` loses precision above 2^53, and that is not modelled. `Number("")` is already 0, so the explicit empty-string test changes nothing; it is modelled as written.
- `ShareLink.SearchParam` covers only what the share link needs from `URLSearchParams`:
  - the leading `?` is dropped;
  - pairs are split on `&` and on the first `=`;
  - the first pair with the name wins.

  Percent-decoding and `+` as a space are not modelled.
- `ShareLink.SearchOf` takes `location.search` as the text from the first `?` to the first `#`. Other URL parsing (userinfo, a `?` inside the origin) is not modelled, so `ShareLinkRoundTrip` requires an origin without `?` or `#`.
- Touch positions (`clientX`) are integers, not fractional CSS pixels. As in the page, the end position changes only on a touch move, so a tap without a move is judged against the previous touch's end position.
- `Access.RoleLookup` admits a lookup that both failed and returned the role `"admin"`, which a `.single()` lookup does not produce (its data is null on error). The difference between the two admin decisions stated by `UploadAccessIsStricter` shows only on that input.
- Record ids are natural numbers. `image_urls` entries are their URL strings, and a missing list is empty.
- The image preview (`URL.createObjectURL`) and the rest of the JSX markup are rendering only.
- `useAuth`, the image-deletion API handler, `Navbar`, `Hero`, `Login` and `App` are subscription plumbing, a thin HTTP handler, and UI or routing. `useAuth`'s role default and `isAdmin` add nothing beyond the two access decisions. None of them is part of this model.
