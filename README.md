# Crowd density monitor — a verified model of its core

The system watches a canteen queue through a camera. A person detector runs on
every third frame. Each detection's person count goes into a bounded history of
the last 100 counts, and the density (people per 10000 pixels) is shown with it. Counts are stored per timestamp in a small SQLite table and
summarised per weekday. A Flask front end serves the stream, an image upload and
JSON statistics.

This project models the bookkeeping around that pipeline and proves what it
promises:

- `upload_filter.dfy` (module `UploadFilter`): the upload file-name filter `allowed_file`.
- `crowd_monitor.dfy` (module `CrowdMonitor`): the `CrowdDensityMonitor` class. It covers
  `calculate_density` with its 100-element history, the frame-skip and cache schedule of the
  streaming loop `generate_frames`, and `process_image`. The class keeps the source's fields and
  updates them in place. The streaming loop is a `while` loop proved against a function `Run`
  of the old state and the frames read.
- `timestamps.dfy` (module `Timestamps`): naive `datetime` values, the proleptic Gregorian
  `weekday()` rule and the chronological order the table sorts by.
- `crowd_records.dfy` (module `CrowdRecords`): the `CrowdDatabase` class over its `crowd_records`
  rows. It covers the insert-or-update `add_record`, `get_records_by_weekday` and the
  `MAX`/`MIN`/`COUNT` part of `get_weekday_stats`.
- `routes.dfy` (module `Routes`): the route table of config.py. It covers `get_route_info`,
  `get_enabled_routes` (a loop, proved against `Enabled`), the grouping in `print_routes_info`,
  and `get_startup_info`.
- `statistics.dfy` (module `Statistics`): data.py. A module-level monitor reference is set by
  `set_monitor`. The fallbacks answer while it is unset. The detailed statistics come from the
  monitor's count history.
- `optional.dfy` (module `Optional`): the `Option` type used for Python's `None`.

External parts are parameters of the model:

- The detector is a function parameter `detect: Frame -> seq<Box>`.
- The camera is a finite sequence of read outcomes, where `None` is a failed `cap.read()`.
- An image that `cv2.imread` could not decode is `None`.
- The monitor that data.py reads is a snapshot value with the fields it uses.

## Model

| member | source | states |
|---|---|---|
| UploadFilter.Lower | MC_web.py:120 | lower-casing keeps the length, leaves no ASCII capital, maps each capital to its small letter and keeps every other character |
| UploadFilter.AllowedFile | MC_web.py:119-120 | a name is accepted iff it has a '.' with no '.' after it and the lower-cased text after that '.' is one of png, jpg, jpeg, gif, bmp |
| UploadFilter.LastDotCharacterised | MC_web.py:120 | the split point of `rsplit('.', 1)` is exactly the '.' that has no '.' after it |
| UploadFilter.ExtensionAt | MC_web.py:120 | the extension tested is the text after that last '.' |
| UploadFilter.NoDotRejected | MC_web.py:120 | a name without '.' is rejected |
| UploadFilter.OnlyLastExtensionCounts | MC_web.py:120 | for `stem + "." + ext` with no '.' in `ext`, the verdict depends on `ext` alone, whatever the stem |
| UploadFilter.DoubleExtensionRejected | MC_web.py:120 | "a.jpg.exe" is rejected |
| UploadFilter.UpperCaseLastExtensionAccepted | MC_web.py:120 | "a.EXE.JPG" is accepted: case is ignored and only the last extension counts |
| UploadFilter.EmptyExtensionRejected | MC_web.py:120 | a name ending in '.' is rejected |
| CrowdMonitor.Density | MC_web.py:43-45 | density times the frame area equals the count times 10000; it is non-negative and zero exactly when nobody is seen |
| CrowdMonitor.Append | MC_web.py:46 | appending to the 100-element deque: the new count is last; below capacity nothing is lost; at capacity the oldest count is evicted and the rest keep their order |
| CrowdMonitor.AppendKeepsNewest | MC_web.py:46 | one append leaves the newest 100 counts of the old history plus the new count |
| CrowdMonitor.AppendAllKeepsNewest | MC_web.py:46 | after any number of appends the history is the newest 100 of everything appended, in order |
| CrowdMonitor.Measure | MC_web.py:69-70 | a detection's reading holds the boxes found and their number as the person count |
| CrowdMonitor.Step | MC_web.py:66-81 | one iteration shows the frame at 640x480 and advances the counter; on a detection frame it measures the resized frame, stores the triple and appends its count to the history; otherwise it shows the stored triple again and changes nothing else |
| CrowdMonitor.SuccessfulReads | MC_web.py:61-64 | the frames processed are exactly the reads before the first failed read |
| CrowdMonitor.Run | MC_web.py:59-81 | running the loop over n frames yields n frames, advances the frame counter by n, keeps the history within 100, and the stored triple ends as the last one shown |
| CrowdMonitor.RunSnoc | MC_web.py:61-81 | one more frame read is one more loop iteration |
| CrowdMonitor.RunShownAt | MC_web.py:66-79 | frame i is the input resized to 640x480; it shows a fresh detection exactly when `(frame_count + i) % frame_skip == 0`, and otherwise the triple of the frame before it (the stored triple for the first frame) |
| CrowdMonitor.SkippedFrameShowsLastDetection | MC_web.py:68-79 | between detection frames the count, density and boxes shown are those of the last detection |
| CrowdMonitor.ScheduleFromStart | MC_web.py:29-68 | from a fresh monitor, detection runs on streamed frame i exactly when `i % frame_skip == 0` |
| CrowdMonitor.RunHistory | MC_web.py:68-70 | the history gains the counts of the detection frames and nothing else, in frame order |
| CrowdMonitor.RunHistoryNewest | MC_web.py:68-70 | the history after streaming is the newest 100 of the old history followed by the detected counts |
| CrowdMonitor.StreamStopsAtFirstFailure | MC_web.py:61-64 | the stream ends at the first failed read: nothing read after it is processed, and each frame shown is a successful read resized to 640x480 |
| CrowdMonitor.SuccessfulReadsPrefix | MC_web.py:63-64 | cutting the reads at a failed read leaves the processed frames unchanged |
| CrowdMonitor.SuccessfulReadsUnique | MC_web.py:61-64 | any prefix of successful reads that ends at a failed read or at the end is the one processed |
| CrowdMonitor.FitForDetection | MC_web.py:101-103 | an image taller than 1080 or wider than 1920 becomes 960x720; any other image is kept; the result is never oversize |
| CrowdMonitor.CrowdDensityMonitor.constructor | MC_web.py:26-32 | a new monitor has an empty history, no detections, count 0, density 0, frame counter 0 and frame skip 3 |
| CrowdMonitor.CrowdDensityMonitor.CalculateDensity | MC_web.py:41-47 | returns the number of detections and its density, and appends that count to the bounded history and changes no other field |
| CrowdMonitor.CrowdDensityMonitor.StreamFrame | MC_web.py:66-81 | one loop iteration changes the fields and yields the frame that `Step` prescribes |
| CrowdMonitor.CrowdDensityMonitor.GenerateFrames | MC_web.py:59-93 | the loop yields exactly `Run` over the reads before the first failure, and leaves the fields in `Run`'s final state |
| CrowdMonitor.CrowdDensityMonitor.ProcessImage | MC_web.py:95-114 | an unreadable image gives (None, 0, 0) and leaves the history alone; otherwise the image is fitted, its detections are counted, the density is taken over the fitted size and the count is appended to the history |
| Timestamps.DaysInMonth | database.py:66-68 | every month has 28 to 31 days |
| Timestamps.Ordinal | database.py:68 | `toordinal()` numbers the days from 1 for 0001-01-01 to 3652059 for 9999-12-31, and each year's days come after all days of the years before it |
| Timestamps.Weekday | database.py:67-68 | the weekday is between 0 and 6 |
| Timestamps.DaysBeforeNextYear | database.py:67-68 | a leap year has 366 days and any other year 365 |
| Timestamps.NextDayOrdinal | database.py:67-68 | consecutive calendar days have consecutive day numbers, across month and year ends |
| Timestamps.NextDayWeekday | database.py:67-68 | the weekday advances by one each day, Sunday (6) being followed by Monday (0) |
| Timestamps.KnownMondays | database.py:68 | 0001-01-01 and 2024-01-01 are Mondays (0) |
| Timestamps.BeforeStrictTotal | database.py:98 | the timestamp order is irreflexive, asymmetric, total and transitive |
| CrowdRecords.IndexOf | database.py:80-84 | finds a row with the timestamp, or reports that no row has it |
| CrowdRecords.ResolveWeekday | database.py:67-68 | a given weekday is stored as given; without one, the timestamp's own weekday, 0 to 6 |
| CrowdRecords.Upsert | database.py:61-88 | a new timestamp appends a row with the table's next autoincrement id, the count and the given weekday (or the timestamp's own) and reports True; an existing timestamp has only that row's count replaced, everything else unchanged, and reports False |
| CrowdRecords.UpsertKeepsTableValid | database.py:41-86 | after a write, timestamps stay unique, ids stay positive, increasing and below the next id, the next id advances only on an insert, and a new row's id exceeds every earlier id |
| CrowdRecords.UpsertKeepsUnique | database.py:42 | the `UNIQUE` timestamps survive a write |
| CrowdRecords.UpsertTwice | database.py:70-86 | a second write with the same timestamp reports False and leaves what one write of the second count with the first weekday would |
| CrowdRecords.CountByTimeKeys | database.py:42 | the timestamp-to-count view has exactly the table's timestamps as keys |
| CrowdRecords.CountByTimeAt | database.py:42-43 | in that view each timestamp maps to its row's count |
| CrowdRecords.CountByTimeSetCount | database.py:80-84 | replacing one row's count updates the view at that timestamp only |
| CrowdRecords.UpsertIsMapUpdate | database.py:61-88 | on counts, `add_record` is a map update: the timestamp now maps to the new count |
| CrowdRecords.WithWeekday | database.py:97 | the `WHERE weekday = ?` filter keeps exactly the rows with that weekday, and keeps timestamps unique |
| CrowdRecords.Insert | database.py:98 | insertion adds exactly the one row to the multiset |
| CrowdRecords.InsertAscending | database.py:98 | inserting a row with a new timestamp keeps the rows ascending |
| CrowdRecords.SortByTime | database.py:98 | `ORDER BY timestamp` of rows with unique timestamps is ascending and a permutation of its input |
| CrowdRecords.RecordsByWeekday | database.py:90-103 | the result is ascending by timestamp; it holds exactly the rows with the weekday and is a permutation of the filtered rows |
| CrowdRecords.AscendingHasNoDuplicates | database.py:98 | ascending rows never repeat a row |
| CrowdRecords.Aggregate | database.py:110-118 | `COUNT(*)` is the number of rows; `MAX` and `MIN` are absent exactly when there are no rows, are bounds of every count, and are attained |
| CrowdRecords.WeekdayStatsOf | database.py:105-122 | the count equals the number of rows with the weekday, and the maximum is absent exactly when no row has it |
| CrowdRecords.MinAtMostMax | database.py:113-114 | when rows exist for the weekday, min and max are present and min <= max |
| CrowdRecords.StatsCountMatchesQuery | database.py:95-118 | the stats count equals the length of the ordered query's result |
| CrowdRecords.CrowdDatabase.constructor | database.py:39-47 | opening the table keeps the rows already stored and the autoincrement counter already reached; ids may have gaps |
| CrowdRecords.CrowdDatabase.AddRecord | database.py:61-88 | the table becomes `Upsert` of the old one, with the same True/False answer; the next id advances by one exactly on an insert; the table stays valid |
| CrowdRecords.CrowdDatabase.GetRecordsByWeekday | database.py:90-103 | reads without changing the table; the rows of the weekday are returned ascending by timestamp and each exactly once |
| CrowdRecords.CrowdDatabase.GetWeekdayStats | database.py:105-122 | reads without changing the table; returns the weekday's aggregate, whose count is the number of matching rows and whose min is at most its max |
| Routes.Lookup | config.py:110-112 | `dict.get`: None iff no key equals the path, and otherwise a value stored under it |
| Routes.LookupFindsEntry | config.py:110-112 | with distinct keys, each path finds its own configuration |
| Routes.GetRouteInfo | config.py:110-112 | a configured path gives its configuration; any other path gives None |
| Routes.Enabled | config.py:115-125 | the enabled list is never longer than the table |
| Routes.GetEnabledRoutes | config.py:115-125 | the loop returns exactly `Enabled` of the table |
| Routes.EnabledMembership | config.py:118-124 | an entry is returned iff some configured route is not disabled and has that path, name and type |
| Routes.EnabledAppend | config.py:118-124 | the filter keeps table order: splitting the table splits the result the same way |
| Routes.EnabledKeepsAll | config.py:118-124 | with no disabled route, every route is returned, in table order |
| Routes.ShippedPathsDistinct | config.py:14-55 | the shipped paths are distinct |
| Routes.ShippedRoutesAllEnabled | config.py:14-55 | all 7 shipped routes are enabled, in table order |
| Routes.ShippedEnabledRoutes | config.py:14-55 | the enabled list of the shipped table, written out |
| Routes.OfKind | config.py:137-139 | a group is never longer than the routes and holds only routes of its type |
| Routes.OfKindFilters | config.py:137-139 | a group holds exactly the routes of its type, as a subsequence of the routes |
| Routes.GroupRoutes | config.py:137-139 | the frontend, API and stream groups each hold exactly the routes of that type |
| Routes.GroupsDisjointSubsequences | config.py:137-139 | the three groups are order-preserving filters, and no route is in two of them |
| Routes.OfKindAppend | config.py:137-139 | grouping a concatenation groups each part |
| Routes.OfKindNone | config.py:137-139 | with no route of a type, its group is empty |
| Routes.GroupsCover | config.py:137-139 | when every route has one of the three printed types, the group sizes add up to the number of routes |
| Routes.ShippedGroups | config.py:134-139 | the shipped routes group into 2 frontend, 4 API and 1 stream route, 7 in all |
| Routes.ShippedGroupSizes | config.py:137-139 | routes typed frontend, frontend, api, api, api, stream, api group into 2, 4 and 1 |
| Routes.Decimal | config.py:164-170 | `str(port)` is a non-empty string of digits without a leading zero |
| Routes.DecimalRoundTrip | config.py:164-170 | the written port number reads back as itself |
| Routes.DisplayHost | config.py:162 | the wildcard address 0.0.0.0 is shown as localhost, and any other host as itself |
| Routes.StartupUrls | config.py:159-170 | the five startup URLs are `http://` + display host + `:` + port followed by `/`, `/history`, `/api/realtime`, `/api/history` and `/video_feed`, in that order |
| Routes.StartupPathsAreEnabledRoutes | config.py:164-170 | every linked path is a configured, enabled route |
| Routes.GetStartupInfo | config.py:159-170 | with the shipped host 0.0.0.0 and port 5000, all five URLs are written out, each starting `http://localhost:5000` |
| Statistics.Max | data.py:72 | `max` of a non-empty history is one of its counts and at least every count |
| Statistics.TruncDiv | data.py:66 | `int()` of an exact quotient rounds toward zero, for either sign |
| Statistics.Mean | data.py:66 | `int(np.mean(h))` is the exact mean with its fraction dropped: rounded down for a non-negative sum, up for a negative one |
| Statistics.SumAtMostMaxTimesLength | data.py:66-72 | the sum of the history is at most its maximum times its length |
| Statistics.AverageAtMostMax | data.py:66-72 | the truncated mean never exceeds the maximum |
| Statistics.MeanOfNonNegative | data.py:63-66 | for non-negative counts the truncated mean is the integer quotient sum / length, and is non-negative |
| Statistics.SumNonNegative | data.py:66 | a sum of non-negative counts is non-negative |
| Statistics.DetailedStatsOf | data.py:62-76 | online status and current count; average 0 and max 0 for an empty history, otherwise the truncated mean and the maximum; detections equal the history length; inference time in milliseconds; average <= max |
| Statistics.DataModule.constructor | data.py:11 | no monitor is set at import |
| Statistics.DataModule.SetMonitor | data.py:13-16 | after `set_monitor(m)` the real-time and history queries delegate to `m`, and the detailed query answers from `m`, or offline when `m` is None |
| Statistics.DataModule.GetRealtimeData | data.py:18-31 | without a monitor, the fixed "8-12 minutes" / "Medium" / "~35-50 people" record; otherwise the monitor's real-time stats |
| Statistics.DataModule.GetHistoryData | data.py:33-50 | without a monitor, the fixed record with 7 weekly values and a 3 by 4 heatmap; otherwise the monitor's history stats |
| Statistics.DataModule.GetDetailedStats | data.py:52-76 | without a monitor, offline with current, average and total all 0 and no other keys; otherwise the monitor's detailed statistics |

## Left out

- Person detection, camera capture, the drawing of boxes and text, and JPEG encoding. These are library calls. The detector is a function parameter and a frame is its size plus an opaque picture id.
- The multipart HTTP body that `generate_frames` yields: the model yields the frame and the triple drawn on it.
- The camera source is finite here; `while True` over a camera that never fails is not modelled.
- The threading lock. The model is sequential. The detections, count and density are still written together and read together.
- Floating point. Density is a `real`. SQL `AVG` is not modelled. `inference_time_ms` is the snapshot's time times 1000 over the reals.
- `Statistics.Mean` computes the exact integer quotient; `np.mean` computes it in floating point, which can differ for very large sums.
- Row ids: the table is a sequence in id order, and the `AUTOINCREMENT` counter is a field of the table object, set when it is opened. Ids are increasing and may have gaps, which is what deletions leave.
- SQLite connections and schema creation, and the conversion to and from ISO-8601 strings. Timestamps are datetime values, and their field order stands for the order of their ISO strings. Timezone-aware datetimes are not modelled.
- The `created_at` column: it comes from the database clock.
- `clear_all` and `get_database_size` are called elsewhere but not defined in database.py; they are not part of this model.
- The Flask routes, the upload saving, app.py, the history generator, the configuration switcher, the benchmark and resolution scripts, and the mock data.
- The printing in `print_routes_info`: only its grouping is modelled.
- A route without a 'type' key. The source passes `config.get('type') != 'disabled'` and then fails on `config['type']`. Every route here has a type.
- UploadFilter.Lower: lower-cases ASCII letters only. `str.lower()` covers all of Unicode. Only two non-ASCII characters lower-case to something containing an ASCII letter: the Kelvin sign becomes 'k', and 'İ' becomes 'i' followed by a combining dot. Neither can produce one of the five extensions, so the verdict is the same.
- Data that data.py reads from the monitor but that `CrowdDensityMonitor` in MC_web.py does not define (`person_count_history`, `inference_time`, `get_realtime_stats`, `get_history_stats`). They are fields of the monitor snapshot, and the snapshot is not linked to the class's own history.
- Aliasing of the module-level monitor reference: data.py sees the monitor as a value at the time of each query.
- Image dimensions are positive. A zero-area frame would divide by zero in `calculate_density`, and cv2 never produces one.
