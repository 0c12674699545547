# Fe-fit pose overlay and video lists — a Dafny model

This project models the pure logic inside the Fe-fit dashboard screens.
The surrounding fetching and rendering are left out.

- **Pose overlay** (`KeypointOverlay.tsx`):
  - the bone table of the 33-point pose model;
  - the `object-fit: contain` geometry that places normalised landmarks on the video picture (section 5.5 of CSS Images Module Level 3);
  - optional mirroring of x as `1 - x`;
  - the strict 0.65 visibility gate for bones and joints, and the joint colour split;
  - what `onResults` paints and publishes;
  - the per-tick decisions of the `requestAnimationFrame` loop and how the loop starts.
- **Video addresses**: `ensureVideoUrl`, and the trainer page's inline copy of the same rule.
- **Trainer video library**:
  - level keys and level order;
  - calories from a `kcal:<n>` tag in the description;
  - `mm:ss` durations and the status priority;
  - the level options;
  - the search / status / level filters and the asc/desc sort;
  - deletion.
- **Admin pending-video queue**: the row mapping, the difficulty options, the search and level filters, the three sort keys and the order toggle.
- **Joint picker** (`JointSelector.tsx`): joint and axis toggles, and the "selected" test, including complex joints that count as selected through their axes.
- **Dashboard header**: `getInitials` and the display-name fallback.
- **Admin trainer list**: the view model, the name search, the summary statistics and the blank-address guard of the invite form.

Modules follow the program's structure:

- **Support modules:**
  - `Common`: `Option`.
  - `Text`: the JavaScript string operations the pages use: `trim`, ASCII case mapping, `includes`, `/(\d+)/`, `||` on strings, and string order.
  - `Seqs`: filter, dedupe, subsequence.
  - `Ordering`: sort keys, directions and a stable sort by any strict total order.
- **Page modules:**
  - `VideoUrl`
  - `OverlayGeometry`, `OverlayRender`, `FrameTick`
  - `TrainerVideos`, `AdminVideos`
  - `JointSelector`, `DashboardHeader`, `AdminUsers`

**Modelling choices:**

- Environment values become parameters:
  - `API_BASE` is the string `base`. The shared constant (`VideoUrl.ApiBase`, from `NEXT_PUBLIC_API_BASE`) and the trainer library's own constant (`TrainerVideos.PageBase`, which also reads `NEXT_PUBLIC_BACKEND_URL`) are kept apart, and `TrainerVideos.PageBaseAgreesWithApiBase` says when they coincide;
  - turning `created_at` into a timestamp is the function `parseDate`;
  - `getSortableDate` is the integer `sortableDate` of a raw video.
- The overlay's geometry is computed on reals.

## Model

| member | source | states |
|---|---|---|
| OverlayRender.ConnectionsInRange | app/components/KeypointOverlay.tsx:23-33 | every bone joins two different landmark indices, both below 33 |
| OverlayGeometry.ContainRect | app/components/KeypointOverlay.tsx:227-249 | the picture is positive, keeps the source aspect ratio, is centred, fits the box, touches two opposite sides, and takes the full width exactly when the source is wider |
| OverlayGeometry.NoMetadataFillsBox | app/components/KeypointOverlay.tsx:227-228 | a video without intrinsic size fills the box with zero offsets |
| OverlayGeometry.LetterboxExample | app/components/KeypointOverlay.tsx:238-243 | a 1920x1080 video in an 800x600 box gets 75-pixel bars above and below |
| OverlayGeometry.PillarboxExample | app/components/KeypointOverlay.tsx:244-249 | a 1080x1920 video in an 800x600 box gets 231.25-pixel bars left and right |
| OverlayGeometry.PixelInsideRect | app/components/KeypointOverlay.tsx:263-266 | a landmark in the unit square lands inside the picture, mirrored or not |
| OverlayGeometry.ToPixelInsideBox | app/components/KeypointOverlay.tsx:281-282 | a landmark in the unit square lands inside the element's box, mirrored or not |
| OverlayRender.JointColor | app/components/KeypointOverlay.tsx:287-291 | coral exactly for indices up to 10, blue exactly for the rest |
| OverlayRender.DrawBone | app/components/KeypointOverlay.tsx:256-266 | a bone is drawn iff both ends exist and both visibilities exceed 0.65, between the two mapped pixels |
| OverlayRender.DrawJoint | app/components/KeypointOverlay.tsx:277-291 | a joint is drawn iff its visibility exceeds 0.65, at its mapped pixel in its index's colour |
| OverlayRender.DrawPose | app/components/KeypointOverlay.tsx:256-297 | one bone slot per table entry and one joint slot per landmark, each present exactly when visible, holding that bone's segment between the mapped end points and that joint's dot at its mapped pixel |
| OverlayRender.ThresholdIsStrict | app/components/KeypointOverlay.tsx:261 | a visibility of exactly 0.65 draws neither the joint nor any bone touching it |
| OverlayRender.FullFrameBones | app/components/KeypointOverlay.tsx:256-261 | on a full 33-point frame a bone is drawn iff both its landmarks are visible |
| OverlayRender.DrawnJointsInsideBox | app/components/KeypointOverlay.tsx:277-284 | every painted joint of an in-frame pose lies inside the element's box |
| OverlayRender.MirrorAll | app/components/KeypointOverlay.tsx:201-204 | same length, each landmark mirrored |
| OverlayRender.MirrorAllTwice | app/components/KeypointOverlay.tsx:199-205 | mirroring twice restores the frame |
| OverlayRender.OnResults | app/components/KeypointOverlay.tsx:190-210 | nothing without canvas, video or pose; paints the drawing of the contained picture; publishes every landmark, flipping only x when mirroring |
| OverlayRender.PublishedMatchesDrawing | app/components/KeypointOverlay.tsx:199-205 | a painted joint sits where the published (possibly mirrored) landmark maps without further mirroring |
| FrameTick.TickAsWritten | app/components/KeypointOverlay.tsx:143-169 | the tick as written: no effect when inactive; sends iff playing with data; resizes iff active and the integer canvas size differs from the real box size, and then takes the truncated box size; reschedules iff still playing and neither paused nor ended afterwards |
| FrameTick.TickAgreesOnIntegralBox | app/components/KeypointOverlay.tsx:147-151 | on a box of whole pixels the tick as written and the corrected tick have the same effect |
| FrameTick.FractionalBoxResizesEveryTick | app/components/KeypointOverlay.tsx:147-151 | an 800.5-wide box resizes (and so clears) the canvas on the first tick and again on the next |
| FrameTick.Tick | app/components/KeypointOverlay.tsx:142-169 | inactive ticks do nothing; a frame is sent iff active with readyState at least 2; the canvas is resized iff its size differs from the box's whole-pixel size (`CanvasFor`); the next tick is scheduled iff still playing and neither paused nor ended afterwards |
| FrameTick.ResizeSettles | app/components/KeypointOverlay.tsx:147-151 | once resized, a tick with the same box does not resize again |
| FrameTick.Loop | app/components/KeypointOverlay.tsx:142-170 | the loop of corrected ticks (which agrees with the code's loop on whole-pixel boxes) runs each tick on the canvas left by the previous one; every tick but the last reschedules, and a loop that stops early ends on a tick that does not |
| FrameTick.LoopCons | app/components/KeypointOverlay.tsx:167-169 | the first tick followed by the loop from its canvas is the loop one tick earlier |
| FrameTick.NotPlayingNeverSends | app/components/KeypointOverlay.tsx:143 | the early return of `processFrame`: a tick whose `isPlaying` is false touches neither canvas nor detector and does not reschedule, so such a loop sends nothing and stops after one tick |
| FrameTick.SteadyBoxResizesOnce | app/components/KeypointOverlay.tsx:147-151 | with a steady box only the first tick can resize |
| FrameTick.StartLoop | app/components/KeypointOverlay.tsx:134-182 | idle until detector, video and canvas exist; then run at once iff playing with data, wait for `loadeddata` iff playing without, clear iff not playing |
| FrameTick.RunNowSendsFirstFrame | app/components/KeypointOverlay.tsx:156-174 | a loop started at once on a playing, unpaused video with `send` hands its first frame to the detector |
| FrameTick.ClearCanvasLoopIdle | app/components/KeypointOverlay.tsx:143-182 | when the start decision is to clear, a tick with the same playing flag does nothing and ends the loop |
| VideoUrl.FileName | app/lib/adminVideosApi.ts:16 | a suffix of the input that drops only part of the first line: the whole input when the first line has no separator, otherwise everything after the first line's last separator |
| VideoUrl.FileNameHasNoSeparator | app/lib/adminVideosApi.ts:16 | on single-line input the file name has no slash or backslash |
| VideoUrl.FileNameOfBareName | app/lib/adminVideosApi.ts:16 | with no separator the file name is the whole input |
| VideoUrl.EnsureVideoUrl | app/lib/adminVideosApi.ts:13-18 | empty iff the input is missing or empty; http(s) addresses pass unchanged; others become base + "/static/" + file name |
| VideoUrl.FileNameBehindPrefix | app/lib/adminVideosApi.ts:16 | a file name behind a separator-ended prefix is recovered |
| VideoUrl.EnsureVideoUrlIdempotent | app/lib/adminVideosApi.ts:13-18 | applying the rule twice equals applying it once, for a single-line base |
| VideoUrl.ApiBase | app/lib/api.ts:1 | the API variable when set and non-empty, else "/api/backend" |
| TrainerVideos.PageBase | app/trainer/videos/page.tsx:11 | the API variable, else the backend variable, else "/api/backend" |
| TrainerVideos.PageBaseAgreesWithApiBase | app/trainer/videos/page.tsx:11 | the page's base equals the shared one iff the API variable is set or the backend variable is unset or names the default |
| TrainerVideos.BackendOnlyAddressesDiffer | app/trainer/videos/page.tsx:11 | with only the backend variable set, the library and the admin queue build different addresses for the same file |
| TrainerVideos.TrainerUrl | app/trainer/videos/page.tsx:107-110 | the page's inline rewrite agrees with `ensureVideoUrl` on every input, given the same base |
| Text.FirstDigitRun | app/trainer/videos/page.tsx:27 | none iff the string has no digit; otherwise the leftmost digit run, preceded only by non-digits and followed by a non-digit or the end |
| Text.FirstDigitRunOfTrim | app/trainer/videos/page.tsx:26-27 | trimming never changes the first digit run |
| TrainerVideos.LevelKey | app/trainer/videos/page.tsx:23-29 | "Level " + first digit run when there is one, else the trimmed value, else "Unspecified"; never empty |
| TrainerVideos.LevelOrderKey | app/trainer/videos/page.tsx:30-33 | the decimal value of the first digit run, and MAX_SAFE_INTEGER when there is no digit |
| TrainerVideos.LevelOrderOfLevelKey | app/trainer/videos/page.tsx:23-33 | the order key of a level key is the number of the raw value's first digit run, or MAX_SAFE_INTEGER |
| TrainerVideos.NumberedLevelsFirst | app/trainer/videos/page.tsx:30-33 | a numbered level orders before an unnumbered one |
| TrainerVideos.FirstKcalMatch | app/trainer/videos/page.tsx:114 | the leftmost `kcal:` followed by a digit, or none when there is no such place |
| TrainerVideos.KcalInDescription | app/trainer/videos/page.tsx:114-115 | none iff the description has no `kcal:<digit>`; otherwise the value of the whole digit run after the leftmost tag |
| TrainerVideos.KcalTagRoundTrip | app/trainer/videos/page.tsx:114-115 | writing `kcal:<n>` after a colon-free prefix and before a non-digit reads back n |
| TrainerVideos.KcalTagFirstAt | app/trainer/videos/page.tsx:114 | the tag after a colon-free prefix is the leftmost match |
| TrainerVideos.KcalDigitsAt | app/trainer/videos/page.tsx:114 | the digits written after the tag are the captured run |
| TrainerVideos.ResolveKcal | app/trainer/videos/page.tsx:112-116 | a truthy kcal is kept; a falsy one is replaced by the description's tag when present; it changes only to that tag |
| TrainerVideos.Pad2 | app/trainer/videos/page.tsx:122 | the decimal number, with one "0" in front exactly when it is a single digit; reads back as the number |
| TrainerVideos.FormatDuration | app/trainer/videos/page.tsx:118-125 | "00:00" without a duration; a non-empty label passes unchanged; seconds become mm:ss whose fields are the whole minutes and the two-digit remaining seconds, which parses back to the same seconds |
| TrainerVideos.ClockRoundTrip | app/trainer/videos/page.tsx:120-122 | pad2(n div 60) + ":" + pad2(n mod 60) parses back to n |
| TrainerVideos.DeriveStatus | app/trainer/videos/page.tsx:139 | Draft iff the description has "draft:true", else Rejected iff rejected, else Active iff approved, else Verifying |
| TrainerVideos.StatusLabelsDistinct | app/trainer/videos/page.tsx:173 | the case-insensitive status filter tells the four statuses apart |
| TrainerVideos.MapVideo | app/trainer/videos/page.tsx:106-142 | the row carries the normalised address, the resolved calories and their sort key, the lower-case title, the duration label and its sort key, the derived status, the shown level and the level key |
| TrainerVideos.MapVideos | app/trainer/videos/page.tsx:106 | one row per video, in order |
| TrainerVideos.RowLevels | app/trainer/videos/page.tsx:158 | each row's level key, "Unspecified" for an empty one |
| TrainerVideos.LevelOptions | app/trainer/videos/page.tsx:157-160 | no duplicates, exactly the rows' level keys, ascending by level order; keys with equal order keys keep the first-appearance order of `new Set` |
| TrainerVideos.LevelOptionsTiesKeepFirstAppearance | app/trainer/videos/page.tsx:157-160 | two options with the same order key (such as "Unspecified" and "Beginner", both MAX_SAFE_INTEGER) are listed in the order of their first row |
| TrainerVideos.Filtered | app/trainer/videos/page.tsx:164-178 | the three filters applied in turn keep, in order, exactly the rows passing all three |
| TrainerVideos.List | app/trainer/videos/page.tsx:163-202 | exactly the rows passing the query, status and level filters, each as often as before, ordered by the chosen key in the chosen direction, with rows of equal key in their input order |
| TrainerVideos.ListRowsMatch | app/trainer/videos/page.tsx:166-178 | every listed row is a video that passes all three filters |
| TrainerVideos.ListUnfiltered | app/trainer/videos/page.tsx:163-179 | a blank query with both filters at "all" lists a permutation of the videos |
| TrainerVideos.Delete | app/trainer/videos/page.tsx:80 | exactly the rows with other ids remain, each as often as before |
| TrainerVideos.DeleteKeepsOrder | app/trainer/videos/page.tsx:80 | the remaining rows keep their order, and deleting an absent id changes nothing |
| Ordering.Sort | app/trainer/videos/page.tsx:181-200 | for any strict total order on keys: a permutation of the input, ordered by it, and stable (the elements of each key keep their input order) |
| Ordering.SortKeepsTieOrder | app/trainer/videos/page.tsx:181-200 | two elements with the same key that come out in some order went in in that order |
| Ordering.ComparatorIsStrictTotal | app/admin/videos/page.tsx:120-137 | the lists' comparator (`<` then `>` on the keys, flipped for descending) is a strict total order |
| Ordering.Insert | app/admin/videos/page.tsx:120-137 | inserting into an ordered list adds exactly the element and keeps it ordered |
| Ordering.BeforeThenNotAfter | app/admin/videos/page.tsx:134-136 | in a strict total order, a before b and c not before b gives a before c and c not before a |
| Ordering.Toggle | app/admin/videos/page.tsx:259 | the order toggle always changes the direction |
| Ordering.ToggleTwice | app/trainer/videos/page.tsx:296 | toggling the order twice restores it |
| AdminVideos.Difficulty | app/admin/videos/page.tsx:78 | a missing or empty difficulty becomes "Unspecified", any other is trimmed; the result has no edge whitespace |
| AdminVideos.BlankDifficultyBecomesEmpty | app/admin/videos/page.tsx:78 | a difficulty of spaces is not replaced and trims to "" |
| AdminVideos.MapRow | app/admin/videos/page.tsx:74-90 | the row's address, lower-cased search keys, timestamp and difficulty |
| AdminVideos.LevelOptions | app/admin/videos/page.tsx:103-106 | no duplicates, exactly the non-empty difficulties, ordered by the `localeCompare` collation, taken as any strict total order |
| AdminVideos.LevelOptionsStrictlyIncreasing | app/admin/videos/page.tsx:103-106 | the options strictly increase in that collation |
| AdminVideos.Filtered | app/admin/videos/page.tsx:108-118 | the search, then the level filter, keep in order exactly the rows passing both |
| AdminVideos.List | app/admin/videos/page.tsx:108-140 | exactly the rows passing query and level filters, each as often as before, ordered by title, trainer or creation time, with rows of equal key in their input order |
| AdminVideos.ListQuery | app/admin/videos/page.tsx:111-116 | with a non-blank query a row is kept iff title, trainer id or non-empty trainer name contains it |
| AdminVideos.ListLevel | app/admin/videos/page.tsx:118 | a level other than "all" keeps exactly the rows of that difficulty |
| JointSelector.TablesDisjoint | app/components/JointSelector.tsx:5-25 | no simple joint is also a complex joint |
| JointSelector.ToggleEntry | app/components/JointSelector.tsx:57-61 | the name flips membership, an unselected name goes to the end, other names keep their counts |
| JointSelector.ToggleEntryKeepsOrder | app/components/JointSelector.tsx:57-58 | removing a selected name keeps the others in order |
| JointSelector.ToggleEntryTwice | app/components/JointSelector.tsx:57-61 | toggling an unselected name twice restores the list |
| JointSelector.ToggleJoint | app/components/JointSelector.tsx:49-62 | a complex joint only flips its popover; a simple joint is toggled and the popover is untouched |
| JointSelector.ToggleJointTwice | app/components/JointSelector.tsx:49-62 | toggling twice restores the picker, for a closed or own popover and an unselected simple joint |
| JointSelector.ToggleAxis | app/components/JointSelector.tsx:64-71 | the axis name flips membership and every other name keeps its count |
| JointSelector.SimpleSelectedIffListed | app/components/JointSelector.tsx:73-81 | a simple joint is selected iff listed |
| JointSelector.AxisSelectsJoint | app/components/JointSelector.tsx:76-78 | selecting an axis makes its complex joint selected |
| JointSelector.AxisOffDeselects | app/components/JointSelector.tsx:64-81 | turning an axis on and off again leaves an unselected complex joint unselected |
| DashboardHeader.SplitSpaces | app/components/DashboardHeader.tsx:15 | at least one piece, none with a space, joined back with spaces gives the input |
| DashboardHeader.FirstCharsAreWordStarts | app/components/DashboardHeader.tsx:15-17 | the first characters of the pieces are exactly the characters that start a word |
| DashboardHeader.GetInitials | app/components/DashboardHeader.tsx:12-20 | "" for "", at most two characters, the upper-cased word starts in order |
| DashboardHeader.Capitalize | app/components/DashboardHeader.tsx:31 | same length, first character upper-cased, rest unchanged |
| DashboardHeader.CapitalizeIdempotent | app/components/DashboardHeader.tsx:31 | capitalising twice equals capitalising once |
| DashboardHeader.DisplayName | app/components/DashboardHeader.tsx:31 | a non-empty name, else the capitalised role |
| AdminUsers.TrimOrDash | app/admin/users/page.tsx:66 | never empty; the dash for blank input, else the trimmed text |
| AdminUsers.TrainerName | app/admin/users/page.tsx:66 | never empty and never starting or ending in whitespace; a non-empty name wins, else a non-empty e-mail, else the dash |
| AdminUsers.BlankNameHidesEmail | app/admin/users/page.tsx:66 | a name of spaces gives the dash, not the e-mail |
| AdminUsers.ProfileImageUrl | app/lib/adminUsersApi.ts:43-45 | base followed by "/profile-image/" and the id |
| AdminUsers.ToViewModel | app/admin/users/page.tsx:65-77 | name, image, online iff `online` is true, counts defaulting to 0, dash period and zero reset days |
| AdminUsers.ToViewModels | app/admin/users/page.tsx:64-78 | one view model per trainer, in order |
| AdminUsers.FilteredTrainers | app/admin/users/page.tsx:80-84 | all trainers for a blank search, else exactly those whose lower-case name contains the query |
| AdminUsers.FilteredKeepsOrder | app/admin/users/page.tsx:80-84 | the matches keep their order |
| AdminUsers.OnlineCountIsFilterLength | app/admin/users/page.tsx:90 | the running count of online trainers is the length of the online filter, at most the number of trainers |
| AdminUsers.SumMembersAppend | app/admin/users/page.tsx:87 | the member total of a split list is the sum of its parts' totals |
| AdminUsers.ComputeStats | app/admin/users/page.tsx:86-92 | the member and video sums, the number of trainers, and the number online, which never exceeds it |
| AdminUsers.OnInvite | app/admin/users/page.tsx:94-99 | a blank address changes nothing and sends nothing; otherwise the trimmed address is sent and the form shows "Sending..." |
| AdminUsers.InviteSettled | app/admin/users/page.tsx:100-109 | success clears the field and shows "Invitation sent"; failure keeps it and shows the message or "Invite failed" |
| Seqs.Filter | app/admin/users/page.tsx:83 | exactly the elements passing the test, each as often as before |
| Seqs.FilterIsSubseq | app/admin/users/page.tsx:83 | the filtered elements keep their order |
| Seqs.Dedupe | app/trainer/videos/page.tsx:158 | no duplicates, the same members, and in the order of their first occurrence, as a `Set` iterates |
| Seqs.FilterFilter | app/trainer/videos/page.tsx:164-178 | filtering by one test and then another is filtering once by both |
| Seqs.FilterPrecedes | app/admin/users/page.tsx:83 | two kept elements stay in their order |
| Seqs.FilterPrecedesBack | app/admin/users/page.tsx:83 | elements in some order after filtering were in that order before |

## Left out

- Detector loading, `setOptions`, `close` and the console patching are left out. They are foreign calls into MediaPipe and global state.
- Canvas drawing calls are left out. The model records which segments and dots would be painted, and where.
- `requestAnimationFrame`, `cancelAnimationFrame` and the `loadeddata` listener are left out. The loop is modelled as a finite sequence of ticks (`FrameTick.Loop`), and the start as a decision (`FrameTick.StartLoop`).
- The effect's cleanup is left out, because it is scheduling.
- The playback state after the awaited `pose.send` is an input to the tick. Errors from `pose.send` are swallowed, so they are modelled as "no effect on the decision".
- Floating point is not modelled. Geometry is exact real arithmetic, and the display box must be positive. Zero display sizes divide by zero in the page.
- FrameTick.CanvasFor: the canvas dimension is truncated to a natural number. Boxes above 2147483647 pixels are not modelled: there the setter converts modulo 2^32 and, out of range, falls back to the default 300 or 150.
- OverlayRender.OnResults: the `try`/`catch` around drawing is left out. The modelled drawing never throws.
- Landmark fields other than x, y, z and visibility are left out.
- Text.LowerChar and Text.UpperChar map only ASCII letters. Other case mappings of `toLowerCase` / `toUpperCase` are not modelled, and neither is `toUpperCase` lengthening a string (as with "ß").
- Text.StrLess is lexicographic order on characters. It stands in for `<` on UTF-16 code units. Surrogate pairs are not modelled.
- AdminVideos.LevelOptions: `localeCompare` is the parameter `less`, any strict total order. A locale that ranks two different strings as equal is not modelled.
- DashboardHeader.GetInitials works on characters. `w[0]` takes one UTF-16 code unit in the page, so an initial outside the Basic Multilingual Plane is not modelled.
- TrainerVideos.DurationSortKey: a string duration sorts as 0. In the page such values meet numbers under `<`, which this model does not reproduce.
- TrainerVideos.KcalSortKey: calories are natural numbers. `parseNumber` with decimal points, strings and floats is not modelled, and `Number(match[1])` loses precision above 2^53.
- TrainerVideos.LevelOrderKey: `parseInt` precision above 2^53 is not modelled. Digit runs are read exactly.
- TrainerVideos.LevelKey: the `raw == null` branch of `getLevelKey` is unreachable after `?? ""`, so it has no counterpart. A numeric `difficulty` is modelled as its decimal string. That is exact for `??`. It is not exact for the shown level of `TrainerVideos.MapVideo`, because `v.difficulty || v.level || 1` skips a numeric 0 while the model keeps the string "0".
- TrainerVideos.FormatDuration: a numeric duration is a natural number of seconds. A fractional or negative duration is not modelled; the page renders 90.5 as "01:30.5".
- The `thumbnail` field is left out: it is the same address as `s3_url`.
- `getSortableDate` and `fmtDate` are left out: dates are abstract integers. `AdminVideos.Created` receives the date parser as a parameter.
- Network calls are left out: the list loads, `deleteVideo`, the `confirm` dialog, `inviteTrainer` and the reload after an invite. Only their decisions are modelled.
- The click-outside handler of the joint picker's popover is left out, because it is a DOM event.
- The admin trainer view model takes `String(t.id)` as already a string.
- AdminUsers.ToViewModel: member and video counts are natural numbers. `toNumber` passes any finite number, so negative and fractional counts, and the sums `AdminUsers.ComputeStats` forms from them, are not modelled.

## Findings

| source | as written | input that shows it | evidently intended | confidence | as-written member | corrected member |
|---|---|---|---|---|---|---|
| app/components/KeypointOverlay.tsx:148-150 | the integer `canvas.width` is compared with the fractional `rect.width`, so a fractional box never compares equal | a playing video in an 800.5x600 box: the first tick sets the canvas to 800x600, and every later tick sees 800 != 800.5 and resizes (clearing the canvas) again | resize only when the truncated box size differs from the canvas size | medium; not executed | FrameTick.TickAsWritten (shown by FrameTick.FractionalBoxResizesEveryTick) | FrameTick.Tick (with FrameTick.ResizeSettles and FrameTick.SteadyBoxResizesOnce) |
