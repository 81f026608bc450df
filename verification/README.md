# NScouter core: a verified model

NScouter is a desktop client of the Scouter APM collector. This project models the part of its Rust core that
has to be right for the screens to tell the truth, and proves it.

**The past-transaction cache and the scans over it.** The collector answers range queries page by page. A local
cache keeps the rows and, per object, the list of time intervals that are known to be complete. A page is served
from the cache where the range is sealed and covered, and from the collector for the rest, with one cursor handed
over at the seam. `Cover` and `CacheDb` model the interval table and the row table, `PastPage` one page and the
loop that drains a range, `CacheProtocol` any number of readers whose single cache calls interleave with each
other, with evictions, clears, the clock and late rows. `Slices` cuts a window into local days and slices,
`ScanProtocol` is the scan in which workers share an atomic slice counter, a seen set, a collector and done flags,
and each worker reads its slice as one of the readers of `CacheProtocol`; `ScanProgress` bounds its length, and
`ScanLosses` has the schedules in which it misses a row. `Digest` is that collector (streaming top-k and totals per
service), and `WindowCount` is another client of the pages, the elapsed-time distribution of a window; `PageGuard`
has the days it cuts short.

**The wire format.** `Bytes` and `Codec` are big-endian numbers, variable-length decimals, blobs and texts, as
functions and as the reader and writer classes. `Values` is the recursive typed value and the map pack, `Fields`
and `Records` are lists of fields and records with optional trailing groups, `XLogPacks` is the transaction log
pack, `IpText` its address text, `Profile` the parser of profile steps.

**Algorithms.** `Search` is the backtracking glob matcher, `Calendar` the pair between day numbers and dates of the
Gregorian calendar (section 3.2.1 of ISO 8601:2004), `StableSort` the order behind the top list, `Distribution`
histogram percentiles, `Downsample` peak-keeping thinning, `Dictionary` the two-level text cache, `Strided` the
split of work over workers in strides.

Code that changes state in the source is a class with methods here; each method is verified against functions, and
the properties are proved about those functions. The two concurrent parts are state machines over their atomic
steps. `dafny verify dfyconfig.toml` checks everything.

What the source takes from outside is a parameter: the collector is a set of rows and a function (or a relation)
that answers requests, "the cache is over its size limit" is an oracle asked on every turn of the eviction loop,
and the clock only moves forward.

## Results worth knowing

- Where the code meets its promise only under a condition, the condition is proved exactly: local-day cutting and the
  day keys of slices (`Slices.SplitByDay`, `Slices.PlanSlices`: the truncating division misplaces the first midnight
  of a window that starts before the local epoch), blobs and texts of 2^31 bytes and more (`Codec.BlobRoundTrip`,
  `Codec.TextRoundTrip`), address texts that are not canonical quads (`XLogPacks.PackRoundTrip`), instants that hold a
  whole page of rows (`PastPage.MovesOnIffUncrowded`), rows that arrive `SEAL_MS` or more after their end time
  (`CacheProtocol.LatenessIsExact`).
- A put evicts before the page marks its range. After the last page of a range the cache is sound if and only if no
  wanted row of the marked range ended before the cut of that eviction (`PastPage.EvictionSpoilsIff`), and after a whole
  drain if and only if every wanted sealed row survived the evictions since it last came (`PastPage.Drain`); without an
  eviction it is always sound. With any number of readers, a row is a hole in the cache, at a covered time and not
  stored, exactly if it was one at the start or some mark froze it, and no insertion, cut or clear has healed it since
  (`CacheProtocol.HolesAreHistory`). Only a hasty mark freezes a row that was not a hole before: one whose range holds
  a wanted row that ended before some cut made since the reader began, or that follows a clear since then
  (`CacheProtocol.FrozenWereLost`). For every row there is a run in which that happens, and in which the next reader is
  not given the row (`CacheProtocol.EvictionBeforeMarkFreezesAHole`).
- The cover test and the read of a page are two calls of the cache. What an eviction or a clear takes between them the
  page misses, and still it says "done" (`CacheProtocol.RaceLosesTheRest`).
- A page that stops at an instant holding a whole page of rows says "done" like the last page of a range.
- So, in every behaviour, hasty marks included, a row of its range can fail to reach a reader that finished in three
  ways and no others: it was a hole when the reader found its range covered, it was taken in a race, or the reader got
  stuck before it (`CacheProtocol.FinishedRunIsComplete`). At any other moment evictions and clears cost a reader
  nothing. With an honest collector the third way is open exactly to rows that are crowded out: at some instant of the
  range, no later than the row, a page can be filled without it (`CacheProtocol.ReadersTerminate`).
- The same three exceptions, row by row, limit what a scan promises of a slice that it flags as done
  (`ScanProtocol.ScanIsSafe`), and each has a scan that shows it (`ScanLosses.HoleIsFlagged`,
  `ScanLosses.RacedSliceIsFlagged`, and, as an exact condition, `ScanLosses.LostWithoutCacheIff`).
- In the distribution of a window the row limit is reported as truncation, but a day that ends at the page guard is not.
  Whether the limit always comes first is decided by the page size and the most rows an instant can hold
  (`WindowCount.LimitComesFirst`): if it does, an untruncated result is complete (`WindowCount.WindowDistribution`); if it
  does not, there is a day, with a cache as well as without, that ends early and is not reported
  (`PageGuard.GuardHidesRows`, `PageGuard.UnreportedDay`). The least page size that can be configured is among those
  (`PageGuard.SmallestSafePage`).

## Model

| member | source | states |
|---|---|---|
| Cover.SingleRowTest | src-tauri/src/cache/xlog.rs:52-69 | the query for one covering row succeeds exactly when every instant of the range is covered, because rows of one object neither overlap nor touch |
| Cover.SeparatedIsCanonical | src-tauri/src/cache/xlog.rs:130-145 | two interval tables without overlapping or adjacent rows that cover the same instants are the same table |
| Cover.MergeNear | src-tauri/src/cache/xlog.rs:130-145 | widening over every overlapping or adjacent row keeps the table separated and adds precisely the marked instants |
| Cover.TrimExact | src-tauri/src/cache/xlog.rs:163-166 | trimming removes precisely the covered instants below the cut and keeps the table separated |
| Cover.TrimTwice | src-tauri/src/cache/xlog.rs:155-167 | trimming at a cut and then at a later one is trimming at the later one |
| CacheDb.CacheDb.XlogCovered | src-tauri/src/cache/xlog.rs:52-69 | true exactly when there are objects and every instant of the range is covered for each of them |
| CacheDb.CacheDb.XlogPage | src-tauri/src/cache/xlog.rs:72-96 | returns the first `limit` stored rows of the objects in the range by end time and txid, each once, and all of them if there are fewer |
| CacheDb.CacheDb.PutXlogs | src-tauri/src/cache/xlog.rs:99-118 | the rows are inserted, later ones replacing earlier ones with the same txid, and then everything below one cut, if any, is gone from both tables |
| CacheDb.CacheDb.MarkXlog | src-tauri/src/cache/xlog.rs:121-149 | the covered instants are the old ones plus `[s, e]` of each object, nothing else, and rows stay separated |
| CacheDb.CacheDb.EvictTurn | src-tauri/src/cache/xlog.rs:155-167 | a turn that finds a row removes it and everything below one cut, so the store shrinks; one that finds none changes nothing |
| CacheDb.CacheDb.EvictXlog | src-tauri/src/cache/xlog.rs:152-172 | however often the size is over the limit, the eviction as a whole is one cut of both tables |
| CacheDb.CacheDb.Clear | src-tauri/src/cache/mod.rs:148-157 | both tables are empty |
| CacheDb.PutKeepsSound | src-tauri/src/cache/xlog.rs:99-118 | inserting collector rows keeps "covered implies stored" |
| CacheDb.EvictKeepsSound | src-tauri/src/cache/xlog.rs:152-172 | cutting both tables at the same instant keeps "covered implies stored" |
| CacheDb.CoverIsHistory | src-tauri/src/cache/xlog.rs:121-172 | over every history of marks, evictions and clears an instant is covered if and only if it was marked and neither cut off nor cleared since |
| PastPage.DedupeByTxid | src-tauri/src/scouter/past.rs:70-72 | keeps the rows whose txid was not seen, in order, and adds all txids to the seen set |
| PastPage.FreshRowsExact | src-tauri/src/scouter/past.rs:70-72 | deduplication keeps exactly one row of each new txid |
| PastPage.FullPageMovesOn | src-tauri/src/cache/xlog.rs:226-229 | a full page ends strictly after the time it starts from, unless that instant holds a whole page of rows |
| PastPage.MovesOnIffUncrowded | src-tauri/src/cache/xlog.rs:247-248 | every honest "more" moves the cursor on if and only if the instant it stands on holds fewer rows than a page |
| PastPage.StuckAnswer | src-tauri/src/cache/xlog.rs:247-248 | at a crowded instant an honest collector may answer with rows of that instant only, so that the reader stops there |
| PastPage.StuckCrowds | src-tauri/src/cache/xlog.rs:226-229 | where a page stopped although more was announced, a page can be filled without any row it did not bring |
| PastPage.AnswerUpTo | src-tauri/src/cache/xlog.rs:247-248 | from any start an honest answer may go just as far as an instant with a whole page of rows, and bring any such many of them |
| PastPage.StoredIsWanted | src-tauri/src/cache/xlog.rs:217-231 | over a covered range a sound cache holds exactly the rows the collector holds |
| PastPage.CachedPageOk | src-tauri/src/cache/xlog.rs:217-231 | a page read from the cache misses nothing before its cursor, hands over at the seam, and advances |
| PastPage.StoredPageOk | src-tauri/src/cache/xlog.rs:217-231 | a page read from a cache that lacks some rows misses none of those that are stored, and its cursor and verdict are as good |
| PastPage.PastPage | src-tauri/src/cache/xlog.rs:200-262 | the page comes from the cache if and only if the front is covered, and is then the first stored rows, else it is the collector's answer; it holds wanted rows only and misses none before its own cursor, whatever its own put evicts, and from the cache at most what another caller's eviction took between the cover test and the read; it moves the cursor on or says "done", and that at the end of the range or at an instant it fills; both tables are changed by one put or one cut and, after the last page, one mark |
| PastPage.ReadCached | src-tauri/src/cache/xlog.rs:217-231 | the page of a covered range misses at most the rows below the cut of an eviction after the cover test |
| PastPage.StorePage | src-tauri/src/cache/xlog.rs:249-260 | the rows are put, which may cut both tables once, and if the collector said "no more" the range is marked up to the seal after that |
| PastPage.LastPageSoundIff | src-tauri/src/cache/xlog.rs:249-260 | after the last page the cache is sound if and only if every needed row of the marked range was held or came with the page and is not below the cut; for all other rows it is sound in any case |
| PastPage.EvictionSpoilsIff | src-tauri/src/cache/xlog.rs:99-118 | when the rows before the last page are stored, the cache is sound after it if and only if no wanted row of the marked range ended before the cut |
| PastPage.SurvivesIff | src-tauri/src/cache/xlog.rs:152-172 | a row that came with a page is held in the end if and only if no eviction since it last came cut above its end |
| PastPage.Drain | src-tauri/src/cache/xlog.rs:186-262 | reading pages until "done" terminates and collects rows of the objects in the range, each once: of those for which the cache is sound all but rows crowded out at a crowded instant of the range, where it gets stuck; otherwise the sealed part is covered afterwards, and the cache is sound if and only if every wanted row of it survived |
| CacheProtocol.NextKeeps | src-tauri/src/cache/xlog.rs:200-262 | every step of every reader, of the evictions, of the clock and of the collector keeps the invariant of cache and readers |
| CacheProtocol.BehaviourInv | src-tauri/src/cache/xlog.rs:200-262 | the invariant holds in every state of every interleaving, whatever the cache held at the start |
| CacheProtocol.SealSafety | src-tauri/src/cache/xlog.rs:247-259 | in every behaviour covered rows are separated and lie before the seal, each row at a covered instant is stored unless it is a hole, and no row that arrives later falls into a covered range |
| CacheProtocol.StepHoles | src-tauri/src/cache/xlog.rs:99-172 | a row is a hole after a step exactly if the step is a mark that freezes it, or it was one and the step neither inserts it nor uncovers it |
| CacheProtocol.HolesAreHistory | src-tauri/src/cache/xlog.rs:200-262 | in every behaviour a row is a hole exactly if it was one at the start or some mark froze it, and nothing has healed it since |
| CacheProtocol.FrozenWereLost | src-tauri/src/cache/xlog.rs:247-259 | what a mark freezes was a hole before, or was within reach of an eviction or a clear since its reader began |
| CacheProtocol.SoundWithoutHaste | src-tauri/src/cache/xlog.rs:247-259 | without a hasty mark a sound cache stays sound, and no reader finds a hole |
| CacheProtocol.FinishedRunIsComplete | src-tauri/src/cache/xlog.rs:200-262 | in every behaviour a reader that finished has been given nothing foreign and every row that the collector held in its range when the seal was read, but for holes it met under a cover, rows taken between a cover test and its read, and, if it was left stuck, rows from the instant it stopped at |
| CacheProtocol.RaceLosesTheRest | src-tauri/src/cache/xlog.rs:217-231 | whenever a reader has found a sealed range covered, any eviction above its end before the read finishes the reader with nothing of the rest |
| CacheProtocol.ReadersTerminate | src-tauri/src/cache/xlog.rs:200-262 | in every behaviour a reader with honest answers turns no more pages than its range has instants, plus one; it is not left stuck over an uncrowded range, and a row it was not given was missed in the cache or is crowded out in its range |
| CacheProtocol.LatenessIsExact | src-tauri/src/cache/xlog.rs:25 | a row may arrive without ever opening a hole if and only if it is less than the seal's five minutes late |
| CacheProtocol.EvictionBeforeMarkFreezesAHole | src-tauri/src/cache/xlog.rs:117-118 | for every row, a run from a sound cache in which the eviction inside a put makes the mark wrong, the first reader having the row, and a second reader, neither raced nor stuck, then finishes without it |
| Calendar.DaysOfCivil | src-tauri/src/scouter/objtype.rs:163-175 | for every day number the computed date is valid and has that day number |
| Calendar.CivilOfDays | src-tauri/src/mcp/digest.rs:110-118 | every valid date comes back from its day number |
| Calendar.NextDayNumber | src-tauri/src/mcp/digest.rs:110-118 | the date after a valid date, by the leap rules, has the next day number |
| Calendar.ConsecutiveDays | src-tauri/src/scouter/objtype.rs:163-175 | consecutive day numbers give consecutive dates, leap rules and negative eras included |
| Calendar.OnlyCalendar | src-tauri/src/scouter/objtype.rs:163-175 | there is no other calendar: a function that gives 1 January 1970 for day 0 and the next date for the next number is this one |
| Slices.SplitByDay | src-tauri/src/scouter/objtype.rs:125-142 | the pieces always tile the window, and each lies in one local day if and only if the window starts at or after the local epoch, at a midnight, or ends within its first day |
| Slices.PlanSlices | src-tauri/src/mcp/digest.rs:162-178 | in time order the slices tile the window, each a full step or shorter where the day or the window ends; every slice lies in the one local day whose key it carries if and only if the window is empty or aligns with local days; "latest first" is the exact reverse |
| Slices.EpochWindowIsMisdated | src-tauri/src/scouter/objtype.rs:125-142 | in every time zone the window of two milliseconds around the local epoch is one piece, and a slice of it with an instant of January 1st carries the key of December 31st |
| Slices.PlanReaches | src-tauri/src/mcp/digest.rs:162-178 | every instant of the window before its end lies in some slice, before the end of that slice |
| Slices.UnscannedIsHull | src-tauri/src/mcp/digest.rs:180-185 | the unscanned range is the hull of the slices that are not done, and there is none exactly when all are done |
| StableSort.SortIsStableSort | src-tauri/src/mcp/digest.rs:479-486 | the sort is ordered, a permutation, and stable |
| StableSort.TakeSortTwice | src-tauri/src/mcp/digest.rs:479-486 | sorting what an earlier truncation kept together with new rows gives the same first `limit` as sorting everything |
| StableSort.SortedKeysIgnoreOrder | src-tauri/src/mcp/digest.rs:479-486 | the sort keys of the first `limit` do not depend on the order of the input |
| Digest.Collector.Add | src-tauri/src/mcp/digest.rs:461-478 | the totals are those of everything added, and the top of what is kept is the top of everything added |
| Digest.Collector.Trim | src-tauri/src/mcp/digest.rs:479-486 | a trim keeps the first `limit` of the stable sort of what is kept |
| Digest.Collector.Finish | src-tauri/src/mcp/digest.rs:488-510 | the result is exactly the first `limit` of the stable sort of everything ever added, with the totals of all of it |
| Digest.TopServicesShown | src-tauri/src/mcp/digest.rs:488-510 | the services shown are distinct, at most ten, carry their own totals and come in descending order, for any enumeration of the map |
| Digest.TopServicesLead | src-tauri/src/mcp/digest.rs:488-510 | a service with more matches than one that is shown is shown |
| Digest.ServiceTotalsAddUp | src-tauri/src/mcp/digest.rs:461-478 | counts and errors per service add up to matched rows and matched errors |
| Digest.TotalsIgnoreOrder | src-tauri/src/mcp/digest.rs:461-478 | totals per service and error counts do not depend on the order in which rows were added |
| Digest.ResultIgnoresOrder | src-tauri/src/mcp/digest.rs:456-510 | neither do the sort keys of the top rows |
| ScanProtocol.NoSliceTwice | src-tauri/src/mcp/server.rs:583-607 | in every interleaving later claims take larger slice numbers, and no two workers ever hold the same slice |
| ScanProtocol.ScanIsSafe | src-tauri/src/mcp/server.rs:566-657 | at every moment of every interleaving of workers, other readers, evictions, clears, clock and growing collector the collector of matches holds no txid twice and only matching rows of the window; of a slice flagged done every row has been seen, and every unseen row lies in the reported unscanned range, except rows that the reader of their slice met as holes, lost in a race, or got stuck before |
| ScanProtocol.NeverStuck | src-tauri/src/mcp/server.rs:624-657 | a slice read with honest answers is left stuck only if an instant of it holds a whole page of rows of its objects |
| ScanProtocol.OnlyCrowdedOut | src-tauri/src/mcp/server.rs:624-657 | with honest answers a row of a slice flagged done has been seen, unless it was a hole or raced, or is crowded out in the slice |
| ScanLosses.LostWithoutCacheIff | src-tauri/src/mcp/server.rs:624-657 | a scan of a slice with an honest collector can flag it as done without having seen a given row and without fault of the cache if and only if the row is crowded out in the slice |
| ScanLosses.CrowdedSliceIsFlagged | src-tauri/src/mcp/server.rs:624-657 | for every instant of a slice at which a page can be filled without a given later or equally late row, the schedule that does so: done, nothing reported as unscanned, the row not seen |
| ScanLosses.HoleIsFlagged | src-tauri/src/mcp/server.rs:624-657 | for every row there is a scan over a cache with that row as a hole that flags its slice as done, reports nothing as unscanned and has not seen the row, its reader neither raced nor stuck |
| ScanLosses.RacedSliceIsFlagged | src-tauri/src/mcp/server.rs:624-657 | for every row there is a scan over a sound cache that holds it, in which another user evicts by one step above it between cover test and read: the slice is flagged done, nothing is reported as unscanned, the row has not been seen |
| ScanProtocol.StepInv | src-tauri/src/mcp/server.rs:583-657 | each atomic step of a worker, each single call of the cache by anyone, and each step of clock and collector keeps the invariants of the scan and of the cache |
| ScanProtocol.WindowIsWanted | src-tauri/src/mcp/server.rs:403-439 | for the plan of an aligned window, with objects per day and days without objects left out, the rows the scan is about are exactly those of the window whose object is asked for on the day of their end time, or on the day before a midnight they end at |
| ScanProtocol.CompletedScan | src-tauri/src/mcp/server.rs:566-657 | a scan without stop, error, page guard, hole met, race or stuck slice, over a collector that did not grow, scans each row of the window once, collects exactly the matching ones, and reports nothing as unscanned |
| ScanProtocol.ScheduleDoesNotMatter | src-tauri/src/mcp/server.rs:566-657 | two such scans, with any numbers of workers, any schedules and any contents of the cache, give the same counts, totals per service and top sort keys |
| ScanProgress.OwnStepCosts | src-tauri/src/mcp/server.rs:583-657 | every step of a worker uses up at least one of a number of steps left |
| ScanProgress.OthersCostNothing | src-tauri/src/mcp/server.rs:583-657 | no step of another user of the cache, of the clock or of the collector changes that number |
| ScanProgress.ScansEnd | src-tauri/src/mcp/server.rs:583-657 | in every schedule the workers together take at most 2,004 steps for each slice and two for each worker, whatever the collector answers |
| WindowCount.TakePage | src-tauri/src/commands.rs:865-869 | of a page exactly the rows not counted before are counted |
| WindowCount.CountPage | src-tauri/src/commands.rs:860-880 | a page brings the count up to its cursor, and the cache stays sound for all rows not counted yet, whatever is evicted |
| WindowCount.LeastRowsClosed | src-tauri/src/commands.rs:857-880 | where the fullest instant takes at most half a page, `n` full pages bring at least `p + (n - 1) * (p - c)` rows |
| WindowCount.CountDay | src-tauri/src/commands.rs:857-880 | a day read to its end is counted completely, whatever is evicted; if no instant of the day fills a page and the row limit comes before the page guard, a day that is not truncated was read to its end; over a front that is not covered, or covered and empty, the result is the functional reading of the day |
| WindowCount.WindowDistribution | src-tauri/src/commands.rs:839-892 | the distribution is that of rows of the window, each at most once; if no instant of the window fills a page and the page size is such that the row limit comes before the page guard, a result that is not truncated counts all of them exactly once, whatever was evicted |
| PageGuard.GuardHidesRows | src-tauri/src/commands.rs:857-880 | for every page size and most rows per instant for which the limit does not come first, with a cache or without, an honest collector with no more rows per instant and a day that ends at the page guard: not truncated, and its last row not counted |
| PageGuard.UnreportedDay | src-tauri/src/commands.rs:857-880 | counting that day, with a sound cache or without one, gives a distribution that does not say it is truncated and lacks a row |
| PageGuard.SmallestSafePage | src-tauri/src/config.rs:259 | with one row per instant the limit comes first from page size 1,001 on without a cache and from 1,007 on with one; at the least configurable size, 1,000, it does not |
| Bytes.SignedOfBytes | src-tauri/src/scouter/codec.rs:185-195 | a signed number that fits in `n` bytes is the value of its low `n` bytes |
| Codec.DecimalRoundTrip | src-tauri/src/scouter/codec.rs:226-248 | every 64-bit number is read back from its decimal, with the reader right behind it |
| Codec.BlobRoundTrip | src-tauri/src/scouter/codec.rs:251-267 | a blob is read back, with the reader right behind it, if and only if it is shorter than 2^31 bytes |
| Codec.TextRoundTrip | src-tauri/src/scouter/codec.rs:270-276 | a text is read back, with the reader right behind it, if and only if it is shorter than 2^31 bytes |
| Codec.DecimalExtends | src-tauri/src/scouter/codec.rs:110-121 | bytes behind a decimal do not change how it is read, and reading one takes at least one byte |
| Codec.BlobExtends | src-tauri/src/scouter/codec.rs:124-135 | the same for blobs |
| Codec.ScouterReader.ReadInt3 | src-tauri/src/scouter/codec.rs:86-94 | shifting a 32-bit word gives the signed three-byte number |
| Codec.ScouterReader.ReadLong5 | src-tauri/src/scouter/codec.rs:97-107 | sign extension of the first byte gives the signed five-byte number |
| Codec.ScouterReader.ReadDecimal | src-tauri/src/scouter/codec.rs:110-121 | the branch on the signed length byte reads what the format says, or fails |
| Codec.ScouterReader.ReadBlob | src-tauri/src/scouter/codec.rs:124-135 | the three length forms are read as the format says, or the read fails |
| Codec.ScouterReader.ReadText | src-tauri/src/scouter/codec.rs:138-142 | a text is a blob that is well-formed UTF-8; anything else fails |
| Codec.ScouterWriter.WriteDecimal | src-tauri/src/scouter/codec.rs:226-248 | the writer appends the encoding and nothing else |
| Codec.ScouterWriter.WriteBlob | src-tauri/src/scouter/codec.rs:251-267 | the writer appends the encoding of the blob |
| Values.PlanRoundTrip | src-tauri/src/scouter/value.rs:42-111 | every value of any nesting, for every order in which its maps are enumerated, is read back equal from its bytes followed by anything, and exactly those bytes are consumed |
| Values.ValueExtends | src-tauri/src/scouter/value.rs:42-80 | what follows a value does not change how it is read |
| Values.ReadFrom | src-tauri/src/scouter/value.rs:42-80 | the recursive reader does what the format says, or fails |
| Values.WriteTo | src-tauri/src/scouter/value.rs:83-111 | the recursive writer appends the value in some enumeration of its maps |
| Values.WriteThenRead | src-tauri/src/scouter/value.rs:42-111 | writing any value and reading it gives the value and leaves exactly what was behind it |
| Values.WriteMapPack | src-tauri/src/scouter/pack.rs:49-56 | a map pack is its type byte, the number of entries and the entries in some order |
| Values.ReadMapPack | src-tauri/src/scouter/pack.rs:37-46 | the map pack reader does what the format says, or fails |
| Values.MapPackRoundTrip | src-tauri/src/scouter/pack.rs:37-56 | every map pack is read back equal for every enumeration, whatever follows |
| IpText.QuadRoundTrip | src-tauri/src/scouter/pack.rs:447-458 | four bytes come back from their dotted quad |
| IpText.IpRoundTrip | src-tauri/src/scouter/pack.rs:447-458 | an address text comes back if and only if it is empty or a canonical dotted quad |
| Fields.FieldsRoundTrip | src-tauri/src/scouter/pack.rs:138-213 | a list of fields, of the kinds that have one encoding, is read back from its bytes followed by anything |
| Fields.SpeltRoundTrip | src-tauri/src/scouter/profile.rs:355-440 | so is a list that holds typed values, for every order of the entries of the maps in them |
| Fields.FieldsExtend | src-tauri/src/scouter/pack.rs:186-213 | what follows a list of fields does not change how it is read |
| Fields.FieldsCut | src-tauri/src/scouter/pack.rs:186-213 | a list of fields cut short anywhere cannot be read |
| Records.RecordRoundTrip | src-tauri/src/scouter/pack.rs:138-337 | a record whose first `g` optional groups were written comes back with the rest at their defaults |
| Records.RecordCut | src-tauri/src/scouter/pack.rs:186-337 | a record cut inside its head or inside a group cannot be read |
| Records.WriteRecord | src-tauri/src/scouter/pack.rs:138-184 | the writer appends the head and all groups in order |
| Records.ReadRecord | src-tauri/src/scouter/pack.rs:186-337 | the reader takes a group when something is left and its defaults otherwise |
| XLogPacks.ReadCutPack | src-tauri/src/scouter/pack.rs:186-337 | a pack of which only the first `g` of twelve optional groups were sent is read with the others at their defaults |
| XLogPacks.PackRoundTrip | src-tauri/src/scouter/pack.rs:138-337 | a pack written for the cache comes back field for field if and only if its address text is empty or a canonical quad |
| XLogPacks.ReadPacksAreCanonical | src-tauri/src/scouter/pack.rs:186-337 | every pack that was read has such an address, so the cache returns what the collector sent |
| XLogPacks.CutAnywhere | src-tauri/src/scouter/pack.rs:186-337 | a blob cut short is a pack exactly at the ends of the head and of the twelve groups, and then with precisely the remaining groups at their defaults; anywhere else it is an error, never a wrong pack |
| XLogPacks.WritePack | src-tauri/src/scouter/pack.rs:138-184 | the writer produces the blob of the pack |
| XLogPacks.ReadInner | src-tauri/src/scouter/pack.rs:186-337 | the reader yields the pack of the blob, or fails |
| Profile.StepExtends | src-tauri/src/scouter/profile.rs:188-353 | a step takes at least one byte, and what follows it does not change how it is read |
| Profile.StepCut | src-tauri/src/scouter/profile.rs:188-353 | fewer bytes than a step takes are never read as a step |
| Profile.ParseConcat | src-tauri/src/scouter/profile.rs:164-181 | behind bytes that parse to their end, any bytes parse as they would alone: the steps are concatenated |
| Profile.UnknownTypeStops | src-tauri/src/scouter/profile.rs:343-352 | a step of a type that is none of the 23 known ones ends the parse and keeps exactly the steps before it |
| Profile.TruncatedStepStops | src-tauri/src/scouter/profile.rs:164-181 | a step cut short at any byte ends the parse and keeps exactly the steps before it |
| Profile.CutKeepsPrefix | src-tauri/src/scouter/profile.rs:164-181 | cutting any profile anywhere only drops steps from the end |
| Profile.ProfileOnWire | src-tauri/src/scouter/profile.rs:164-440 | any run of steps of any of the known types, sent in the layouts of their types, span steps with any nested values included, is parsed to its end and gives each step in its place |
| Profile.MethodOnWire | src-tauri/src/scouter/profile.rs:199-213 | the bytes of a method step, base, hash, elapsed and CPU time as decimals, parse to that step and then to the steps of the rest; the later kind has one number more |
| Profile.SqlOnWire | src-tauri/src/scouter/profile.rs:214-229 | the bytes of the three kinds of SQL steps, each the former with more at the end, parse to the statement with its parameter, times, error and update count, and then to the steps of the rest |
| Profile.MessageOnWire | src-tauri/src/scouter/profile.rs:230-249 | the bytes of the three kinds of message steps parse to their text and hash, and then to the steps of the rest |
| Profile.ApiCallOnWire | src-tauri/src/scouter/profile.rs:250-267 | the bytes of the two kinds of call steps parse to the call, with the address bytes present and kept exactly behind a 1, and then to the steps of the rest |
| Profile.SocketOnWire | src-tauri/src/scouter/profile.rs:268-276 | the bytes of a socket step parse to the address text of its blob, port, time and error, and then to the steps of the rest |
| Profile.ThreadCallOnWire | src-tauri/src/scouter/profile.rs:299-312 | the bytes of a thread call parse to txid, hash, time and whether the last byte is not zero, and then to the steps of the rest |
| Profile.ReadStep | src-tauri/src/scouter/profile.rs:188-353 | the step reader takes summary types without a base, others with one, and fails on unknown types |
| Profile.ParseProfileSteps | src-tauri/src/scouter/profile.rs:164-181 | the loop terminates and returns the steps up to the end or to the first that cannot be read |
| Search.GlobMatch | src-tauri/src/scouter/search.rs:151-173 | the loop that remembers only the last star terminates and answers exactly as the recursive meaning of stars |
| Search.GlobMatchCi | src-tauri/src/scouter/search.rs:151-173 | the same on lower-cased pattern and value, for any lower-casing of strings |
| Search.LastStarSuffices | src-tauri/src/scouter/search.rs:158-171 | once the literal between two stars has matched, forgetting the earlier star loses no match |
| Search.WordMeansContains | src-tauri/src/scouter/search.rs:86-92 | a non-empty word without a star matches exactly the values that contain it, both lower-cased, for any lower-casing of strings that leaves stars alone |
| Distribution.Percentile | src-tauri/src/scouter/distribution.rs:168-182 | the value found is the smallest that at least `p` percent of the values do not exceed, and 0 without values |
| Distribution.PercentileIsRank | src-tauri/src/scouter/distribution.rs:168-182 | that is the value at rank ceil(p n / 100) of the inputs, clamped to 0 and the cap, in ascending order |
| Distribution.PercentilesAscend | src-tauri/src/scouter/distribution.rs:168-182 | a higher percentage never gives a smaller value |
| Distribution.FallThroughUnreachable | src-tauri/src/scouter/distribution.rs:168-182 | with at least one value the search always finds a cell |
| Distribution.BucketIndex | src-tauri/src/scouter/distribution.rs:155-162 | the bucket found lies between its bounds |
| Distribution.OneBucket | src-tauri/src/scouter/distribution.rs:155-162 | a time lies in one bucket only |
| Distribution.BucketsAddUp | src-tauri/src/scouter/distribution.rs:109-124 | bucket counts and bucket errors add up to the totals |
| Distribution.DistributionInOrder | src-tauri/src/scouter/distribution.rs:130-151 | p50 <= p90 <= p99 <= the longest time |
| Distribution.Accumulator.Add | src-tauri/src/scouter/distribution.rs:109-124 | counters, sum, maximum and cells stay those of everything added, negative times counting as 0 |
| Distribution.Accumulator.Finish | src-tauri/src/scouter/distribution.rs:130-151 | the result is the distribution of everything added |
| Downsample.BucketsPartition | src-tauri/src/scouter/objtype.rs:201-204 | every point lies in exactly one bucket |
| Downsample.StartNext | src-tauri/src/scouter/objtype.rs:201-204 | every bucket ends where the next begins and none is empty, so that the clamps on its end never act |
| Downsample.Downsample | src-tauri/src/scouter/objtype.rs:192-228 | a series that is short enough is returned as it is; otherwise there are exactly `max_points` points and each stands for its bucket: its first maximum at its own time, or a gap |
| Downsample.ShownIsPoint | src-tauri/src/scouter/objtype.rs:206-224 | every point shown is a point of its bucket, value and time together |
| Downsample.NothingRisesAbove | src-tauri/src/scouter/objtype.rs:206-224 | no value is larger than what is shown for its bucket |
| Downsample.PeakSurvives | src-tauri/src/scouter/objtype.rs:192-228 | a value is the maximum of the series if and only if it is the maximum of what is shown |
| Downsample.GapsStayGaps | src-tauri/src/scouter/objtype.rs:220-224 | a bucket is a gap if and only if all its points are |
| Downsample.StaysInOrder | src-tauri/src/scouter/objtype.rs:192-228 | times in order stay in order |
| Dictionary.TextStore.PutTexts | src-tauri/src/cache/mod.rs:186-203 | items replace each other in order |
| Dictionary.TextCache.Attach | src-tauri/src/scouter/dictionary.rs:39-42 | what was waiting goes to the disk it was meant for before another is attached |
| Dictionary.TextCache.Insert | src-tauri/src/scouter/dictionary.rs:49-55 | the text is in memory, and waits for the disk exactly if one is attached |
| Dictionary.TextCache.Missing | src-tauri/src/scouter/dictionary.rs:58-74 | returns, in order, exactly the non-zero hashes known neither to memory nor to disk; every other non-zero hash is readable from memory afterwards, with the disk's text if it came from there |
| Dictionary.TextCache.Flush | src-tauri/src/scouter/dictionary.rs:77-85 | the attached disk receives what was waiting, in order, and nothing waits any more |
| Dictionary.DiskReceivesItsOwn | src-tauri/src/scouter/dictionary.rs:33-86 | over every run over several collectors, each disk holds what it held at first plus what was inserted while it was attached, except for the last part that is still waiting for it, and nothing else |
| Dictionary.FlushedDiskIsExact | src-tauri/src/scouter/dictionary.rs:39-86 | after a flush or an attach nothing is missing |
| Dictionary.FlushedDiskHoldsLastTexts | src-tauri/src/scouter/dictionary.rs:33-86 | the disk then has the last text given for each key while it was attached, and its old text for all other keys |
| Strided.TakePart | src-tauri/src/commands.rs:1535-1536 | the loop over a stride collects the items of one worker |
| Strided.PartsPartition | src-tauri/src/commands.rs:1530-1536 | for any number of workers every item is in the part of exactly one of them, and once |
| Strided.FetchParallel | src-tauri/src/commands.rs:1515-1566 | slot `i` holds the answer for target `i`, or nothing if its worker has none, in whatever order the workers' results are taken |
| Strided.Gather | src-tauri/src/scouter/dictionary.rs:131-137 | a worker has the texts of all its own chunks and no others, or nothing if one of them failed |
| Strided.FetchChunks | src-tauri/src/scouter/dictionary.rs:119-160 | every text of a worker whose chunks were all answered is taken in, no text of a worker with a failed chunk is, and the call succeeds exactly if every chunk was answered |
| Strided.FetchTexts | src-tauri/src/scouter/dictionary.rs:92-112 | the texts that count, and no others, are in memory and on the attached disk, behind what was still waiting, even if the call fails |

## Left out

- SQLite, file sizes, migration and swallowed write errors: each cache call is one atomic step that succeeds, and "over the limit" is an oracle.
- Integer widths of times, counts and ids outside the wire format, and `b * n` in the thinning: unbounded integers; the 32-bit histogram cells hold fewer than 2^32 rows.
- The date directories of the collector: it is indexed by time only; the directory key is modelled where slices carry it.
- A collector that is not honest (invents rows, or says "more" without a full page in time order): termination and the crowding conditions assume honesty; safety of pages, readers and scans assumes only that it does not invent or withhold rows.
- Negative times in a drained range: a cursor time of 0 means "from the beginning", so `PastPage.Drain` starts at 0 or later.
- `load_past_xlog` and `search_xlog_page`: they read the seal again for every page; the seal theorem is about callers that read it once.
- WindowCount.WindowDistribution: like `PastPage.Drain` it takes the collector to be honest and not to grow, and no other caller to use the cache meanwhile; what others can do is stated for the protocol. It starts from a sound cache.
- ScanProtocol.CompletedScan: for a collector that did not grow during the scan; `ScanProtocol.ScanIsSafe` says what holds while it grows.
- ScanProtocol.ScheduleDoesNotMatter: the rows behind equal sort keys may differ between schedules, and the row filter (name conditions included) is a function of the row.
- The profile search that may follow a scan, its time budget, and the wide matcher behind `search_xlog_page`.
- Unicode lower-casing: any function on strings; that it leaves stars alone is an assumption where a word is wrapped. Trimming is by a predicate on characters.
- Floating-point numbers: opaque bits on the wire, real numbers without NaN in the thinning.
- Allocation failure on absurd element counts, and stack depth of nested values.
- Positions and failure messages of a reader after an error: only that it failed.
- `merge_series`, `resolve_window`, `fmt_local`, `parse_local_time`, `hexa32_to_i64`, parameter packs and response mapping: string or map handling that would only add easy members.
- The other packs (object, stack, alert, counter), GZIP, sockets, login, timeouts, and the user interface.
