# A verified model of CondDBMySQL

CondDBMySQL keeps conditions data (calibrations, detector settings) as time intervals in SQL
tables. An object is valid over `[since, till)`; a later store over the same time takes
precedence; a tag freezes what was visible. These files state those rules in Dafny and prove
that the statements the managers issue keep them.

How the pieces fit:

- `SqlTable` gives the meaning of SELECT, UPDATE, DELETE on a table of rows. A SELECT is a
  snapshot taken before the loop over it starts, in no particular order.
- `HeadIndex`, `VersionedStore`, `VersionedRuns` and `MySqlObjectMgr` are the versioned store.
  The class `ObjectMgr` holds the log, head and tag tables and changes them with the loops of
  the source; `VersionedStore` gives the value each operation leaves; `VersionedRuns` proves
  what any history of operations guarantees. The specification is independent of the head
  table: the last object stored over a point.
- `TrimByObject` and `TableVersions` are the variant for tables, whose statements name only the
  object id. It does not refine the exact store; the exact condition under which it does is
  proved for one store and for whole histories, with a history that violates it.
- `OpenTimeline` and `IdTimeline` are the folders without versions, where a row is valid to
  +Inf until a later insertion cuts it.
- `Calendar` is the Gregorian calendar counted day by day and month by month; `SimpleTime`
  proves the closed formulas, the guessed and corrected year and the text form against it.
  `Decimal` holds the decimal conversions.
- `CText`, `CdbTypes`, `Blob`, `TableRow` and `CondDBTable` are the encodings of a table row:
  the flat list of texts, the parser of the store loops, and the array blobs.
- `Paths`, `FolderTree` and `CondDBTagMgr` are the folder names, the folder table and tagging a
  whole subtree.
- `DataSearch` is the search for the next and the last valid object with its cursor.

Times are 64-bit (`Key`); minus and plus infinity are the ends of the range.

Points where the code differs from its comments or its evident intent; the model follows the
code:

- The comment at src/SimpleTime.cxx:25 puts the end of the range in 2262. Counted from 1900 it
  is on 10 April 2192 (`RangeEndsIn2192`).
- The text of plus infinity sorts before that of every finite time (`TextOrder`).
- The table store restricts its statements by object id only. After an object has been split,
  trimming one of its fragments also edits the others (`SecondFragmentLost`, `LoseByTableStore`;
  `ByObjectExactlyWhenSafe`, `VersionMgr.Store` and `TablesAgree` give the exact condition).
- The times of a table are not checked, unlike those of an object. An interval the wrong way round
  doubles every fragment that spans it (`InvertedInterval`); an empty one should change nothing,
  but cuts the other fragments of an object it splits (`EmptyInterval`, `VersionMgr.Store`).
- `addTag` on an empty head skips the DELETE but executes an empty statement, and so fails instead
  of doing nothing (`ObjectMgr.AddTag`).
- Find and browse under a tag without rows send an empty statement instead of returning nothing.
- `storeOnlId` looks an unknown ID up with the default time 0, so a first run at or before time 0
  is skipped, and it never updates the map within a call, so runs of one ID in the same call are
  not compared with each other (`AcceptanceRule`, `OnlineIdTable.StoreOnlId`).
- Array columns of text are escaped before they are put in the blob and the blob is escaped
  again, so a text with a special character is read back with extra backslashes; an empty array
  and an array whose first text is `NULL` are stored as null. A scalar text is written whole but
  read back up to its first NUL (`ColumnSurvives` is the exact condition).
- The interface promises that doubled separators in a folder name are ignored. Names are checked in
  normal form but stored as given. For folder sets the promise fails exactly for creations that
  succeed at a name that is not normal and does not mean the root (`SpellingKept`), for plain
  folders exactly for creations that succeed at a name that is not normal (`FolderSpellingKept`).
  Such a name can be created twice (`CreatedTwice`, `FolderTwice`; `DoubledName` is an instance),
  and tagging a subtree then misses the second row (`RootReachesAll`).
- Creating a plain folder at `/` in an empty tree is refused after the root set has been created,
  and one at `//` is not refused (`CreateFolderLaw`).
- Removing a tag from a folder runs its DELETE only where there is no row and throws where there
  is one, so the link of a folder to a tag is never removed (`TagMgr.Untag`).

## Model

| member | source | states |
|---|---|---|
| HeadIndex.BranchesPartition | src/MySqlObjectMgr.cxx:424-450 | the four branches of the trimming loop are exclusive, and one applies exactly if the fragment overlaps the new interval |
| HeadIndex.TrimmedOne | src/MySqlObjectMgr.cxx:424-450 | statements whose condition hits one stored row replace that row by interval subtraction and touch no other |
| HeadIndex.TrimStep | src/MySqlObjectMgr.cxx:452-490 | one pass over the snapshot replaces the row at hand by its pieces, whatever was edited before, if the condition reaches only that row |
| VersionedStore.CarveDisjoint | src/MySqlObjectMgr.cxx:409-490 | trimming keeps the fragments non-empty and pairwise disjoint |
| VersionedStore.StoredHead | src/MySqlObjectMgr.cxx:392-505 | after a store the fragments are disjoint, non-empty, each inside the logged interval of its object, ids without gaps |
| VersionedStore.StoredRefines | src/MySqlObjectMgr.cxx:392-505 | after a store the fragment at every point belongs to the last logged object over it, and a covered point has a fragment |
| VersionedStore.LastIsHighest | src/MySqlObjectMgr.cxx:411-490 | the last object over a point has the highest layer of all objects over it |
| VersionedStore.StoredLayers | src/MySqlObjectMgr.cxx:411-493 | the new layer exceeds that of every logged object the new one overlaps, although it is computed from the visible fragments only |
| VersionedStore.StoredInv | src/MySqlObjectMgr.cxx:392-505 | a store preserves the whole invariant: keys, disjointness, containment, layers, last store wins |
| VersionedRuns.LastStoreWins | src/MySqlObjectMgr.cxx:68-76 | after any history of stores, tags and untags, find on HEAD at any point returns exactly the object stored last over it, and nothing if none was |
| VersionedRuns.LayersClimb | src/MySqlObjectMgr.cxx:404-499 | after any history the objects over a point have increasing layers in store order and find shows the highest |
| VersionedRuns.StoreCovers | src/MySqlObjectMgr.cxx:409-499 | a store makes the covered set the old one united with its interval |
| VersionedRuns.CarveGrowsByOne | src/MySqlObjectMgr.cxx:480-488 | one store splits at most one fragment |
| VersionedRuns.HeadSize | src/MySqlObjectMgr.cxx:409-499 | after n stores, n at least 1, head has at most 2n-1 rows, whatever tagging happened in between |
| VersionedRuns.HeadNotEmpty | src/MySqlObjectMgr.cxx:409-499 | head is non-empty, so that tagging succeeds, if and only if something was ever stored |
| VersionedRuns.EmptyHeadNoTags | src/MySqlObjectMgr.cxx:562-590 | in every state an empty head means an empty log and no tag rows, so a tagging that fails leaves nothing stale behind |
| VersionedRuns.LogGrows | src/MySqlObjectMgr.cxx:230-243 | whatever happens later only extends the log |
| VersionedRuns.TagUntouched | src/MySqlObjectMgr.cxx:562-604 | stores and operations on other tags leave the rows of a tag alone and only extend the log |
| VersionedRuns.TagIsSnapshot | src/MySqlObjectMgr.cxx:562-590 | once something has been stored, find under a tag (not 0, which is HEAD) returns for ever after, at every point, what HEAD showed when the tag was put on; retagging leaves no old row and no duplicate |
| VersionedRuns.UntagUndoesTag | src/MySqlObjectMgr.cxx:597-604 | removing a tag leaves no row of it and all rows of others; it undoes the tagging with a new tag exactly |
| MySqlObjectMgr.ObjectMgr.SelectOverlap | src/MySqlObjectMgr.cxx:404-407 | the snapshot holds every overlapping fragment once with the layer of its object |
| MySqlObjectMgr.ObjectMgr.TrimRow | src/MySqlObjectMgr.cxx:424-450 | the branch runs its statements under the exact object, since and till condition |
| MySqlObjectMgr.TrimExact | src/MySqlObjectMgr.cxx:452-490 | the exact condition still hits the one snapshot row at hand after all earlier edits of the loop |
| MySqlObjectMgr.ObjectMgr.TrimOverlapped | src/MySqlObjectMgr.cxx:411-490 | the loop leaves the interval difference of the old head, whatever the row order, and yields the highest layer met |
| MySqlObjectMgr.ObjectMgr.Insert | src/MySqlObjectMgr.cxx:230-243 | the object gets the next id in the log and one head row with that id |
| MySqlObjectMgr.ObjectMgr.Store | src/MySqlObjectMgr.cxx:392-505 | the loop and the insert together are one abstract store, and the invariant holds again |
| MySqlObjectMgr.ObjectMgr.Find | src/MySqlObjectMgr.cxx:68-96 | on HEAD or under a tag, each fragment over the point once, joined with its log row; a tag without rows is a failed query |
| MySqlObjectMgr.ObjectMgr.BrowseTagged | src/MySqlObjectMgr.cxx:116-148 | all fragments of HEAD or of a tag once; no result for the unknown tag; a tag without rows is a failed query |
| MySqlObjectMgr.ObjectMgr.BrowseHistory | src/MySqlObjectMgr.cxx:186-224 | the fragments that meet the interval, with the same two exceptions |
| MySqlObjectMgr.HistoryIsFindOverInterval | src/MySqlObjectMgr.cxx:186-199 | history over an interval shows exactly what find shows at some point of it |
| MySqlObjectMgr.ObjectMgr.AddTag | src/MySqlObjectMgr.cxx:562-590 | the tag's rows become a copy of head, no duplicates; it fails and changes nothing exactly if head is empty |
| MySqlObjectMgr.Retag | src/MySqlObjectMgr.cxx:562-590 | the statements of a tagging replace exactly the rows of the tag by one row for each row of head |
| MySqlObjectMgr.ObjectMgr.RemoveTag | src/MySqlObjectMgr.cxx:597-604 | exactly the rows of the tag are gone |
| TrimByObject.SafeTrims | src/MySqlOnlineMgr.cxx:960-1018 | in a safe state the loop by object id performs interval subtraction after every prefix of the snapshot |
| TrimByObject.UnsafeMisses | src/MySqlOnlineMgr.cxx:960-1018 | in a state that is not safe the loop loses a fragment the exact loop keeps, whatever the row order |
| TrimByObject.ByObjectExactlyWhenSafe | src/MySqlOnlineMgr.cxx:960-1018 | for any row order and any interval with since at or before till, the loop by object id leaves what the exact loop leaves if and only if every overlapped object has one fragment or lies wholly inside the interval; in every other state a fragment that should stay is missing |
| TableVersions.VersionMgr.TrimRow | src/MySqlOnlineMgr.cxx:994-1016 | the branch runs its statements under the object id alone |
| TableVersions.VersionMgr.TrimOverlapped | src/MySqlOnlineMgr.cxx:945-1018 | the loop applies the branch to every snapshot row in the order delivered and yields the highest layer |
| TableVersions.VersionMgr.Store | src/MySqlOnlineMgr.cxx:935-1033 | from any head, those left by unsafe or inverted stores included, and for any interval: the log is that of the exact store, and head is what the loop leaves of the rows delivered, and the new row. From a state of the exact store, with since at or before till, the tables, and likewise what is found at every point, are those of the exact store exactly when the state is safe; with since after till one row is left at each point exactly when no fragment spans the interval |
| TableVersions.FindsAgree | src/MySqlOnlineMgr.cxx:935-1033 | after an unsafe store there is a point where find returns something else than after the exact store |
| TableVersions.TablesAgree | src/MySqlOnlineMgr.cxx:935-1033 | however the overlap queries order their rows: head agrees with the exact store after every table of a history if and only if every step of the history is safe |
| TableVersions.SplitHistory | src/MySqlOnlineMgr.cxx:1009-1016 | two exact stores reach a head in which one object has two fragments, each from a state that is safe for it |
| TableVersions.SecondFragmentLost | src/MySqlOnlineMgr.cxx:960-1018 | at that head the loop by object id over [10,20) loses the object at 70, the exact condition keeps it |
| TableVersions.LoseByTableStore | src/MySqlOnlineMgr.cxx:935-1033 | three table stores into empty tables, over [0,100), [40,60) and [10,20), reach that head by themselves and then lose what was stored over 70 |
| TableVersions.InvertedInterval | src/MySqlOnlineMgr.cxx:935-1018 | with since after till, which the table store accepts, the loop leaves at most one fragment at each point if and only if no fragment spans the interval |
| TableVersions.EmptyInterval | src/MySqlOnlineMgr.cxx:935-1033 | the exact store of an empty interval shows nothing and hides nothing at any point; the table store agrees exactly in safe states, by the law of Store |
| TableVersions.TablesKeepApart | src/MySqlOnlineMgr.cxx:826-833 | selecting a table's dat_id returns its rows, in order and with multiplicity, and no other table's |
| TableVersions.DatIds | src/MySqlOnlineMgr.cxx:826-833 | with no empty table stored, the largest dat_id in use belongs to the last table, whatever the intervals |
| TableVersions.VersionMgr.MaxDatId | src/MySqlOnlineMgr.cxx:826-833 | the largest dat_id, and whether there is any |
| TableVersions.VersionMgr.InsertRows | src/MySqlOnlineMgr.cxx:856-921 | appends the encoded rows of the table in order under one dat_id |
| TableVersions.VersionMgr.StoreVer | src/MySqlOnlineMgr.cxx:816-933 | in every history, for every non-empty table: its rows go to the data table under a dat_id not in use, its object to the log, and tags keep their rows. From a state of the exact store the result is the one in which the table is the latest if and only if since is before till and the state was safe; other intervals and states leave what Store leaves |
| TableVersions.LastTableShown | src/MySqlOnlineMgr.cxx:97-100 | a head row over a time, of the state after the first n tables, leads to the rows of the last of them stored over it, however many followed |
| TableVersions.TagHits | src/MySqlOnlineMgr.cxx:97-98 | the tag rows over a time are the head rows over it when the tag was put on |
| TableVersions.HitOnce | src/MySqlOnlineMgr.cxx:90-112 | in a state of the exact store the join hits at most one row at a time, on HEAD and under a tag, so no table is shown twice |
| TableVersions.VersionMgr.AddTag | src/MySqlObjectMgr.cxx:562-590 | in every history the tag's rows become a copy of head and no other tag changes; it fails without effect exactly if head is empty. In states of the exact store the tag freezes the tables stored so far |
| TableVersions.VersionMgr.FindTag | src/MySqlOnlineMgr.cxx:90-112 | in every history: the rows of the table of every head or tag row over the time, hit by hit. In states of the exact store: exactly the rows of the last table stored over the time, among all tables or those stored before the tag was put on, each once, with the fragment's times and the layer; nothing if there is none |
| OpenTimeline.OneRowValid | src/MySqlOnlineMgr.cxx:649-659 | at every time before +Inf exactly one row is valid: that of the latest insertion starting at or before it, else the initial null row, for insertions in any time order |
| OpenTimeline.OnlineTable.constructor | src/MySqlOnlineMgr.cxx:390-417 | a new table holds one null row, valid from -Inf to +Inf |
| OpenTimeline.OnlineTable.Cut | src/MySqlOnlineMgr.cxx:655-656 | every row reaching beyond the start ends at it |
| OpenTimeline.OnlineTable.StoreOnl | src/MySqlOnlineMgr.cxx:559-667 | the rows handed in, of the columns of the folder, are inserted one after another in encoded form |
| OpenTimeline.OnlineTable.FindOnl | src/MySqlOnlineMgr.cxx:61-88 | one row at every time before +Inf, that of the latest insertion starting at or before it |
| IdTimeline.RunsPartition | src/MySqlOnlineMgr.cxx:727-808 | the blocks are the input in order, none empty, neighbours with different IDs |
| IdTimeline.ApplyVisible | src/MySqlOnlineMgr.cxx:798-806 | from its start on an inserted run shows its rows and no others of its ID and no null rows; every other ID and every earlier time shows what it showed |
| IdTimeline.OtherRowsStand | src/MySqlOnlineMgr.cxx:801-802 | rows of other IDs are not touched at all; only null rows can be cut along |
| IdTimeline.LastRunVisible | src/MySqlOnlineMgr.cxx:798-806 | for every ID and time the valid rows carrying it are exactly the last accepted run with a start at or before the time |
| IdTimeline.NullsVisible | src/MySqlOnlineMgr.cxx:798-806 | the valid null rows are those of the last accepted run of any ID if that stored nulls, and the initial row as long as there is no run |
| IdTimeline.EverythingVisible | src/MySqlOnlineMgr.cxx:798-806 | all valid rows of a time are, for every ID, the rows of its last run, the null rows, and nothing besides |
| IdTimeline.OpenBelongs | src/MySqlOnlineMgr.cxx:704-722 | in every history an open row with an ID belongs to a run after which every run of the ID starts at +Inf |
| IdTimeline.LeaderIsOpen | src/MySqlOnlineMgr.cxx:704-722 | and such a run has an open row, with its ID and start |
| IdTimeline.AcceptanceRule | src/MySqlOnlineMgr.cxx:794-798 | in every history the start a run is compared with is that of an earlier run whose rows are open and whose ID reads the same, or time 0 if there is none; if those runs are all of its very ID and start before +Inf, it is accepted if and only if it starts after the last accepted run of its ID before the call, or after time 0 if there is none |
| IdTimeline.RunsUniform | src/MySqlOnlineMgr.cxx:729-792 | all rows of a run store the same ID, or all a null if the ID is the null value of its column |
| IdTimeline.OnlineIdTable.BuildMap | src/MySqlOnlineMgr.cxx:704-722 | the IDs of the open rows as they are read, up to a NUL, each with the start of one of them |
| IdTimeline.OnlineIdTable.CollectBlock | src/MySqlOnlineMgr.cxx:729-792 | the inner loop takes a maximal run of equal IDs, rows encoded, and stops behind it |
| IdTimeline.OnlineIdTable.InsertBlock | src/MySqlOnlineMgr.cxx:801-805 | rows of the ID and null rows are cut at the start, the block follows with that start and +Inf |
| IdTimeline.OnlineIdTable.OfferRun | src/MySqlOnlineMgr.cxx:798-806 | a run is taken whole or not at all, and the lookup does not change later answers |
| IdTimeline.OnlineIdTable.StoreOnlId | src/MySqlOnlineMgr.cxx:669-813 | the history grows by exactly the runs of the input that the map read before the first insertion accepts |
| IdTimeline.OnlineIdTable.FindOnl | src/MySqlOnlineMgr.cxx:61-88 | at a time, for an ID: the rows of its last accepted run, in order; for the empty ID, which means no filter, all valid rows; nothing at +Inf |
| SimpleTimes.YearClosedForm | src/SimpleTime.cxx:293-295 | 365 y plus the quotients counts the days before a year, one too many in leap years |
| SimpleTimes.MonthClosedForm | src/SimpleTime.cxx:299-328 | the month table counts the days before a month of a common year |
| SimpleTimes.SetsInstant | src/SimpleTime.cxx:271-350 | for every valid date up to 2^63-1 the formulas give the nanoseconds counted by the calendar, with no wrap-around |
| SimpleTimes.RangeEndsIn2192 | src/SimpleTime.cxx:24-25 | the dates that fit are exactly those up to 10 April 2192, 23:47:16.854775807 |
| SimpleTimes.CorrectionExact | src/SimpleTime.cxx:374-378 | for a guess that is right or one low, the correction lands in the right year if and only if the guess does not miss the leap day's edge |
| SimpleTimes.YearCorrected | src/SimpleTime.cxx:374-379 | every guess within the tolerance of t / 365.25637 days is corrected to the right year |
| SimpleTimes.SimpleTime.FromCalendarTime | src/SimpleTime.cxx:271-350 | sets infinity, leaves the time on a bad year or month, else sets the 64-bit value of the formula |
| SimpleTimes.SimpleTime.YearSection | src/SimpleTime.cxx:372-379 | the year of the instant, for any quotient within the tolerance |
| SimpleTimes.SimpleTime.MonthSection | src/SimpleTime.cxx:391-428 | the month whose days of the year contain the time |
| SimpleTimes.SimpleTime.FiniteCalendarTime | src/SimpleTime.cxx:368-443 | the one valid date whose instant is the time |
| SimpleTimes.SimpleTime.ToCalendarTime | src/SimpleTime.cxx:352-444 | the valid date of a finite time, the flag of an infinite one |
| SimpleTimes.DateSurvives | src/SimpleTime.cxx:271-444 | every valid date below 2^63-1 survives conversion to a time and back |
| SimpleTimes.DateTextParses | src/SimpleTime.cxx:168-176 | reading the fields at their fixed places recovers the date from its text |
| SimpleTimes.TextSortable | src/SimpleTime.cxx:181-228 | texts of finite times from 1900 on are in lexicographic order exactly as the times are |
| SimpleTimes.TextOrder | src/SimpleTime.cxx:181-228 | with the infinities: minus infinity sorts before every finite time, but plus infinity before everything else |
| SimpleTimes.TextRoundTrip | src/SimpleTime.cxx:158-228 | reading the text of such a time sets that time |
| SimpleTimes.SimpleTime.ToNetLogger | src/SimpleTime.cxx:181-228 | the padding loops build the fixed-width text, or the name of the infinity |
| SimpleTimes.SimpleTime.FromNetLogger | src/SimpleTime.cxx:158-179 | sets what the text says; too short a text is an error that changes nothing |
| SimpleTimes.WriteAndRead | src/SimpleTime.cxx:158-228 | writing one time and reading it into another copies it, both infinities included |
| Decimal.Itostr | src/IntegerConversion.h:101-109 | the loop writes the digits of the number without leading zero |
| Decimal.StrtoiValue | src/IntegerConversion.h:111-131 | the recursion in wrapping arithmetic yields the value of a digit string that fits |
| Decimal.FieldProperties | src/SimpleTime.cxx:198-225 | a padded number that fits has exactly the width and keeps its value |
| Decimal.FieldOrder | src/SimpleTime.cxx:181-228 | texts that start with fields of one width are ordered by the numbers first, then by what follows |
| CText.AtolPrinted | src/MySqlOnlineMgr.cxx:594-600 | reading a printed 64-bit number back yields it |
| CText.RereadExactlyCanonical | src/Blob.cxx:167-176 | a text equals the print of its value cut to the word if and only if it is a canonical decimal in range |
| Blob.WordReadBack | src/Blob.cxx:31-64 | the bytes of a word, read back in the width of the type, give the word |
| Blob.BlobReadsBack | src/Blob.cxx:66-292 | reading a blob of any array type returns the elements in their order as their words show them, the two reversals cancelling, and stops exactly behind the bytes written, whatever follows |
| Blob.BlobRoundTrip | src/Blob.cxx:66-292 | an array survives if and only if each element does: a text always, an integer exactly if canonical and in range, a floating-point text exactly if the conversions give it back |
| Blob.MakeBlob | src/Blob.cxx:31-64 | the count, then the words of the buffer in order |
| Blob.VectorToBlob | src/Blob.cxx:66-165 | the loops write the encoding, last element first |
| Blob.MakeVector | src/Blob.cxx:167-176 | reads the words, each shown as its type shows it and inserted in front of those read before |
| Blob.BlobToVector | src/Blob.cxx:179-292 | the loops decode the blob and report how far they read; a blob too short is reported |
| TableRow.GetRow | src/CondDBTable.cxx:1449-1565 | the cells one after another, arrays with their length in front |
| TableRow.ParseRecovers | src/MySqlOnlineMgr.cxx:591-616 | wherever a flattened row stands in a list, the parser recovers its cells and moves behind it |
| TableRow.ParseUndoesGetRow | src/MySqlOnlineMgr.cxx:587-616 | the parser recovers exactly the cells that were flattened and ends at the end of the list, empty arrays included |
| TableRow.ColumnSurvives | src/MySqlOnlineMgr.cxx:297-641 | a column of any type written and read back yields its texts if and only if: where a null is written, the null text is the only element; else a scalar has no NUL in it and every array element keeps its text |
| CondDBTable.RowSurvives | src/MySqlOnlineMgr.cxx:587-659 | a row flattened, parsed, encoded, stored and read back is the row put in if and only if every cell is durable in the sense of the row above |
| TableRow.IntegerArraySurvives | src/MySqlOnlineMgr.cxx:601-641 | an integer array survives storing if and only if each number fits the width of the array type |
| TableRow.PushTexts | src/MySqlOnlineMgr.cxx:601-619 | escaped texts with nulls marked, one null for an empty array |
| TableRow.EncodeColumn | src/MySqlOnlineMgr.cxx:593-641 | from the list position of a column: its stored field and the position of the next one |
| TableRow.EncodeRow | src/MySqlOnlineMgr.cxx:587-643 | the stored fields of all columns in order |
| Paths.NormalizeKeepsNames | src/CondFolderMgr.cxx:676-708 | the result is normal and has the same names |
| Paths.NormalizeIsCanonical | src/CondFolderMgr.cxx:676-708 | two paths have the same normal form if and only if they have the same names; a normal path is its own |
| Paths.NormalizePath | src/CondFolderMgr.cxx:676-708 | the loops compute the normal form; a path without leading separator is an error |
| Paths.SplitShape | src/CondFolderMgr.cxx:652-669 | parent and name of a normal path: the parent is normal and shorter, and the two make up the path |
| Paths.SplitNames | src/CondFolderMgr.cxx:643-672 | splitting takes off the last name and nothing else |
| Paths.SplitPath | src/CondFolderMgr.cxx:643-672 | the search loop finds the parent and name of the normal form; same error |
| FolderTree.CreateSetLaw | src/CondFolderMgr.cxx:140-204 | whatever the spelling: creating a set succeeds exactly if the normal form is free and its parent is there or may and can be made; a failure at any depth changes nothing; afterwards the normal form is taken, and all names still normal, only if the name was normal or means the root |
| FolderTree.CreateFolderLaw | src/CondFolderMgr.cxx:210-357 | the same for plain folders; the root is refused, after the root set was created if it was missing, but a name that means the root and is spelled otherwise goes through |
| FolderTree.SetsWritten | src/CondFolderMgr.cxx:184-201 | whatever the spelling: the rows added are a set of the name given and sets above its normal form, with the description given, and with the attributes given or inherited |
| FolderTree.FolderWritten | src/CondFolderMgr.cxx:235-272 | whatever the spelling: the rows added are the folder with its type and the missing sets above it; at the root, which is refused, the root set |
| FolderTree.SpellingKept | include/ConditionsDB/ICondDBFolderMgr.h:51-52 | for sets: doubled separators do not matter for success, ancestors and attributes; the outcome is that of the normal form, and so they are ignored as promised, exactly if the call fails or the name is normal or means the root; else the row bears the name as given |
| FolderTree.FolderSpellingKept | include/ConditionsDB/ICondDBBasicFolderMgr.h:88-89 | for plain folders: they are ignored as promised exactly if the call fails or the name is normal; a name that means the root and is spelled otherwise is created below the root set, where the root is refused |
| FolderTree.CreatedTwice | src/CondFolderMgr.cxx:154-201 | a set just created can be created again if and only if its name is not normal and does not mean the root, and exactly then the rows are no tree any more |
| FolderTree.FolderTwice | src/CondFolderMgr.cxx:222-272 | a plain folder just created can be created again under the same condition; the rows stay a tree exactly if the name is normal |
| FolderTree.DeleteUndoesCreate | src/CondFolderMgr.cxx:610-639 | whatever the spelling: deleting a folder just created takes away exactly its row if and only if no row bore the name before; below an existing set that restores all rows |
| FolderTree.MakeableExactly | src/CondFolderMgr.cxx:177-188 | the ancestors of a path can be made if and only if no plain folder stands at the path or above it |
| FolderTree.AncestorsAreSets | src/CondFolderMgr.cxx:163-188 | every ancestor of the normal form of a stored name is stored as a set |
| FolderTree.DeleteLaw | src/MySqlFolderMgr.cxx:221-236 | one row of exactly the name given goes, exactly if nothing stands below it, and no other; ids, places and unique names are kept |
| FolderTree.TreeExactly | src/MySqlFolderMgr.cxx:188-215 | the rows form a tree, with unique names and every row under a set at its parent path, exactly if all their names are normal |
| FolderTree.RunsKeepGrove | src/CondFolderMgr.cxx:140-357 | after every history of creations and deletions, in any spelling: ids and normal names are unique and every row stands under the set its normal form belongs under, with a smaller id |
| FolderTree.RunsKeepTree | src/CondFolderMgr.cxx:140-357 | the rows are a tree after every prefix of a history if and only if each of its creations is at a normal name, or of the root set, or fails |
| FolderTree.DoubledName | src/CondFolderMgr.cxx:154-201 | an instance: //a is created twice under the root |
| FolderTree.FolderMgr.Store | src/MySqlFolderMgr.cxx:188-215 | one row under the next id; a plain folder at the root is refused |
| FolderTree.FolderMgr.Exist | src/CondFolderMgr.cxx:418-425 | whether the normal form of the path is stored; same error as normalising |
| FolderTree.FolderMgr.CreateCondDBFolderSet | src/CondFolderMgr.cxx:140-204 | the recursive call leaves the table and reports the success that the law is about, and terminates |
| FolderTree.FolderMgr.CreateCondDBFolder | src/CondFolderMgr.cxx:210-357 | the same for plain and table folders |
| FolderTree.FolderMgr.DeleteFolder | src/CondFolderMgr.cxx:610-639 | the same for deletion |
| CondDBTagMgr.SubtreeOfChildren | src/MySqlFolderMgr.cxx:136-146 | in every reachable folder table, names not in normal form included: following parent ids reaches exactly the rows whose name hangs at or below the path, of several rows with one name the first |
| CondDBTagMgr.RootReachesAll | src/CondDBTagMgr.cxx:195-205 | tagging the root reaches every folder if and only if no name is stored twice |
| CondDBTagMgr.TagChildren | src/CondDBTagMgr.cxx:195-205 | tagging the children one after another is tagging the subtree, no folder missed or left half done |
| CondDBTagMgr.TaggedSubtree | src/CondDBTagMgr.cxx:164-230 | after tagging at a path, every plain folder below it with a non-empty head holds exactly its head under the tag, its other tags unchanged; all other folders are unchanged |
| CondDBTagMgr.TagMgr.TagPlain | src/CondDBTagMgr.cxx:206-224 | one plain folder: object rows and the folder's link; an empty head or missing tables leave everything alone |
| CondDBTagMgr.TagMgr.Tag | src/CondDBTagMgr.cxx:164-230 | the recursion terminates and tags exactly the subtree, in every reachable folder table; an unknown tag or path is an error without effect |
| CondDBTagMgr.AnyTaggedStep | src/CondDBTagMgr.cxx:242-263 | something in a subtree has the tag if and only if its root has it or something below one of its children |
| CondDBTagMgr.TagMgr.IsTagged | src/CondDBTagMgr.cxx:232-269 | true if and only if some folder at or below the path has the tag |
| CondDBTagMgr.TagMgr.Untag | src/MySqlFolderMgr.cxx:264-301 | the object rows of the tag go, the link never does; it reports failure exactly where there is a link or no such folder |
| DataSearch.DataIterator.Current | src/CondDBDataIterator.cxx:81-90 | the row at the cursor, cursor and result kept together |
| DataSearch.DataIterator.Next | src/CondDBDataIterator.cxx:103-116 | the following row, or nothing at the end without moving |
| DataSearch.DataIterator.Previous | src/CondDBDataIterator.cxx:92-101 | the row before, or nothing at the start without moving |
| DataSearch.FindNextValid | src/CondDBDataAccess.cxx:174-218 | the least start after the point among all rows shown and the object handed in, nothing if there is none |
| DataSearch.FindLastValid | src/CondDBDataAccess.cxx:228-271 | the greatest end before the point, likewise |
| DataSearch.SearchesBracketGap | src/CondDBDataAccess.cxx:174-271 | around an uncovered point the span between the two results contains it, and is wholly uncovered if and only if no fragment ends at the point |

## Left out

- MySQL itself: connections, SQL text, `LOCK TABLES`, error logs, and every failure of the server. `LAST_INSERT_ID` is the next unused id.
- Insert times (`insert_t`), the payload table of blob folders and its sizes.
- Partitions and several databases: only one partition, from -Inf to +Inf, is ever created. A table folder is always stored with database id 1.
- Tagging from another tag: the query selects one column and the loop reads three.
- Time paths (`tagId`, `browseId`): the inserted text does not match the schema.
- `browseAll`, `browseAtPoint`, `browseInInterval` and their table versions: other endpoint rules, nothing harder.
- MySqlObjectMgr.ObjectMgr.Store: requires since < till, which the object factory checks at src/CondDBMySQLObjectFactory.cxx:45.
- TableVersions.VersionMgr.StoreVer: requires a non-empty table of the columns of the folder. An empty one is read past its end; other columns fail an assertion.
- TableVersions.VersionMgr.FindTag: the selection a caller may add to the query.
- IdTimeline.OnlineIdTable.StoreOnlId: the read of the row behind the last one at the end of the input, and of row 0 of an empty table, is guarded. Tables of other columns than the folder fail an assertion, there and in `StoreOnl`.
- IdTimeline.OnlineIdTable.FindOnl: an ID is compared as text; the collation of the database and the reformatting of numeric IDs are not modelled, nor are IDs with quotes or backslashes, which the UPDATE does not escape. The order of equal open rows in the GROUP BY is left open.
- SimpleTimes.SimpleTime.ToCalendarTime: times before 1900 other than -Inf, where the setter refuses the year it is given and the current clock enters the result. The division by 365.25637 days is any real within 0.00006 years of the quotient, which is wider than rounding in double precision; dates beyond the 64-bit range wrap in `FromCalendarTime` and nothing is proved of them.
- SimpleTimes.SimpleTime.FiniteCalendarTime: requires a time from 1900 on, for the same reason.
- SimpleTimes.SimpleTime.YearSection: requires a time from 1900 on, for the same reason.
- SimpleTimes.SimpleTime.ToNetLogger: requires a time from 1900 on or an infinity, for the same reason.
- SimpleTimes.SimpleTime.FromNetLogger: the fields are taken modulo the width of the type; nothing is proved of texts that are not written by `ToNetLogger`.
- Blob.BlobRoundTrip: the conversions between texts and floating-point words are those of the C library and a parameter of the model. Texts are sequences of bytes as characters. Branches for big-endian machines are not compiled. Reading beyond a blob is undefined in the source and reported as failure here.
- TableRow.ColumnSurvives: scalar columns are compared as text; the types of the server's columns reformat some numbers and cut values beyond their range, and a blob column ends at 65535 bytes. Escaping and unescaping of a statement cancel.
- TableRow.ParseUndoesGetRow: array lengths below 2^31, the width of the counter that reads them.
- `setCell` and `getCell`: cells are taken as given; the write and read indices disagree at the edges of a table.
- The null comparison of a column (`compareNull`) is a parameter of the model.
- Folder names are compared as text: the collation and the 255 characters of the column `fpath` are not modelled. Names, descriptions and attributes go into the statements unescaped, so those with quotes, backslashes or NUL are left out. Where a name is stored twice, a query by the name delivers the rows in the order of the table.
- FolderTree.FolderMgr.DeleteFolder: the tables of the folder; `deleteTables` is never reached because the query it depends on never returns a null pointer.
- Creation of the database and its fixed tables.
- DataSearch.FindNextValid: requires the object handed in to start after the point; otherwise the source warns, frees it and goes on using it. Folders that are not of the tagged blob type yield nothing and are not modelled.
- DataSearch.FindLastValid: requires the object handed in to end before the point, likewise.
- The tag table itself (names to ids), renaming and deleting tags.
- Durations and intervals of `SimpleTime`, the object and table factories, the PHP and Tcl bindings, the browser, `cdbadmin`.
