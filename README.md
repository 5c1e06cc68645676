# go-attractions-server in Dafny

A model of the core of a small Go service. The service collects tourist
attractions in Lithuania.

- **Ingestion.** `POST /add` validates a JSON attraction, turns it into a
  stored record (`wrap`) and commits it to a sqlite cache in one transaction.
  The cache has two tables: `destinations` and `titles`.
- **Lookup.** `GET /check?name=` normalises the name into an id (`toID`) and
  compares it with every cached id using a bigram Dice coefficient
  (`compareID`). It returns the display names whose score reaches 0.5.
- **Sync.** The `merge` command exports the cache to an external database and
  downloads, decodes and crops each attraction's image. It then posts the
  images as base64 JSON or saves them as JPEG files, keeping a list of the ids
  that failed.
- **Seeding.** The `initialize` command seeds the `titles` table from an
  existing database.

The model follows the source file by file:

| file | module(s) | form |
|---|---|---|
| utils.go | `Utils` | `compareID` as two loops over a count map (multiset), proved against the Dice coefficient `Similarity` |
| attraction.go | `Attractions` | `toID`, the validation rule chain and `wrap` as functions; `validateAttraction` as a method with early returns |
| db.go | `Sql`, `Store` | the cache as a class whose `destinations` and `titles` tables are sequences that the methods reassign; the external database as a second class; statement builders as loops |
| retrieve.go | `Retrieve` | `toDownload` as a class over a backing `array` with a length; `download` and `process` filter that array in place |
| server.go | `Server` | the two handlers as methods returning a status and a body |
| main.go | `Commands` | `handleCommand` as a function returning the call it makes |

Module `GoLib` holds the parts of Go's standard library that the core relies
on: `strings.Split`, `strings.Join`, `strings.TrimSpace`, decimal formatting
of counts, `%v` of a string slice, and base64 with the standard alphabet of
section 4 of RFC 4648.

Every outside effect becomes a parameter. This covers the sqlite driver (a
`None`/`true` for success, an error message or `false` for failure), HTTP
fetches, image decoding and cropping, file creation and JPEG encoding. JSON
marshalling and unmarshalling are parameters too.

Where the code and the service's intended behaviour disagree, the model
follows the code:

- **compareID is not guarded.** The intended behaviour is for `compareID`
  to treat short inputs as empty ranges and to guard the zero denominator. The code
  does neither:
  - exactly one empty side panics at `a[:lena-1]` or `b[:lenb-1]`;
  - two different one-character ids divide 0 by 0.

  The model keeps both behaviours (`Utils.EmptySidePanics`,
  `Utils.SingleCharactersGiveNaN`). It also keeps the panic that
  `checkAvailability` therefore hits (`Server.EmptyIdAborts`).
- **The DELETE hits the external database.** The intended behaviour is that
  the batch write clears the cache afterwards. The code runs `DELETE FROM destinations`
  on the connection to the external database, so the cache is never cleared
  (`Store.ExternalDb.CommitAttractionsToDB`).
- **readCache scans columns in a different order.** It scans in the order id,
  category, location, description, copyright, url. That is not the order in
  which commitAttraction inserts them. The table schema is not part of the
  source, so the cache class takes the declared column order as a parameter.
  `Store.ScanOrderRoundTrip` and `Store.InsertOrderSwapsFields` give the
  outcome for each of the two orders.

## Model

| member | source | states |
|---|---|---|
| Utils.CreateNullString | utils.go:26-34 | the result is valid iff the string is non-empty, holds the string when valid, and is the zero NullString otherwise |
| Utils.SliceContains | utils.go:15-22 | returns true iff the string is an element of the slice (so false for an empty slice) |
| Utils.Bigrams | utils.go:49-50 | a string of length n >= 2 has n - 1 windows, window i being the two characters s[i..i+2]; a shorter one has none |
| Utils.CountBigrams | utils.go:48-52 | after the first loop the count map holds exactly the multiset of the windows of a |
| Utils.MatchBigrams | utils.go:54-65 | the greedy decrementing walk over b's windows counts exactly the size of the multiset intersection |
| Utils.CompareID | utils.go:38-68 | the method equals the reference Dice score: 1 for equal strings, a panic for one empty side, else 2·intersect over len(a)+len(b)-2 |
| Utils.IntersectionBound | utils.go:54-65 | the intersection is at most the number of windows of either side |
| Utils.SimilaritySymmetric | utils.go:38-68 | the score does not depend on argument order |
| Utils.ScoreInUnitInterval | utils.go:36-67 | when len(a)+len(b) > 2 a ratio score lies in [0, 1], as the doc comment promises |
| Utils.EqualIdsMatch | utils.go:42-44 | equal ids, even two empty ones, score 1 and meet the threshold |
| Utils.EmptySidePanics | utils.go:49-56 | exactly one empty side makes compareID panic |
| Utils.SingleCharactersGiveNaN | utils.go:67 | two different one-character ids give 0/0, which never meets the threshold |
| Utils.ScoreOneIffSameBigrams | utils.go:54-67 | for different non-empty ids the score is 1 iff the bigram multisets coincide, and 0 iff they share no bigram |
| Utils.DifferentIdsCanScoreOne | utils.go:38-67 | two different ids such as "aba" and "bab" score exactly 1 |
| Utils.ThresholdIsOneHalf | server.go:85 | the integer threshold test is the real comparison score >= 0.5 |
| GoLib.Split | main.go:34 | strings.Split returns at least one piece and no piece holds the separator |
| GoLib.SplitCount | main.go:34 | there is one more piece than there are separators |
| GoLib.SplitJoin | main.go:34 | joining the pieces with the separator gives back the command |
| GoLib.Repeat | db.go:25 | n copies of the value group |
| GoLib.OccurrencesJoinRepeat | db.go:29 | n groups joined by a separator without the character hold n times the group's occurrences |
| GoLib.TrimSpaceSlice | attraction.go:84 | TrimSpace removes exactly the leading and trailing white space and nothing between |
| GoLib.TrimSpaceIdempotent | attraction.go:84 | trimming twice is trimming once |
| GoLib.Itoa | retrieve.go:52-58 | %d of a count is a non-empty string of decimal digits |
| GoLib.ItoaRoundTrip | retrieve.go:52-58 | the printed count reads back as the count |
| GoLib.Base64Length | retrieve.go:164 | the encoding has 4 characters per started group of 3 bytes |
| GoLib.Base64RoundTrip | retrieve.go:164 | standard base64 decodes back to the bytes encoded |
| Attractions.StripLithuanian | attraction.go:75 | ReplaceAllString deletes exactly the spaces and listed Lithuanian letters and keeps every other character |
| Attractions.ToLower | attraction.go:75 | lowercasing maps each character and keeps the length |
| Attractions.ToID | attraction.go:74-76 | an id is never longer than the name |
| Attractions.LowerIntoStripped | attraction.go:21 | lowercasing yields a space only from a space and turns only Ž from a kept character into a stripped one |
| Attractions.ToIDAppend | attraction.go:75 | toID distributes over concatenation |
| Attractions.ToIDOneCharacter | attraction.go:75 | a stripped character is deleted, not transliterated; any other is lowercased |
| Attractions.ToIDCharacters | attraction.go:74-76 | an id holds no space and consists exactly of the lowercased kept characters of the name |
| Attractions.StripShrinks | attraction.go:75 | a name with a stripped character gets shorter |
| Attractions.StripKeepsClean | attraction.go:75 | a name without stripped characters is left as it is |
| Attractions.ToIDIdempotentIffNoZCaron | attraction.go:74-76 | toID is idempotent exactly on names without Ž (U+017D) |
| Attractions.ZCaronExample | attraction.go:21 | toID("Ž") is "ž" while toID("ž") is empty |
| Attractions.ToIDNoSpacesNoCapitals | attraction.go:75 | an id holds neither spaces nor ASCII capitals |
| Attractions.ToIDIdempotentOnAscii | attraction.go:75 | on ASCII names normalising again changes nothing |
| Attractions.AllStrippedGiveEmptyId | attraction.go:75 | a name made only of stripped characters gives the empty id |
| Attractions.ByteLen | attraction.go:38 | len() counts UTF-8 bytes, between one and four per character |
| Attractions.ByteLenAscii | attraction.go:38 | on ASCII text the byte length is the character count |
| Attractions.FirstBroken | attraction.go:38-67 | returns None iff every rule holds, else the first broken rule in order with all earlier ones holding |
| Attractions.ValidateAttraction | attraction.go:27-70 | the early-return chain gives exactly the outcome of the rule order: the decoding error, the first broken rule's message, or the record |
| Attractions.ValidationChain | attraction.go:38-69 | validation is the chain info length, name length, city, hours, category, coordinates, each with its message |
| Attractions.ValidationFirstFailure | attraction.go:38-69 | a record is accepted unchanged iff every rule holds; a rejection carries the message of the first broken rule |
| Attractions.DecodeErrorPassesThrough | attraction.go:32-36 | a decoding error is returned unchanged |
| Attractions.HoursNotRangeChecked | attraction.go:15 | "99:99-99:99" passes the hours pattern |
| Attractions.HoursUnanchored | attraction.go:52-56 | a field holding the pattern anywhere passes whatever surrounds it |
| Attractions.CityAcceptsNonLetters | attraction.go:47 | a city of '_' and three digits passes, since [A-z] spans '_' and the match is unanchored |
| Attractions.CategoryExact | attraction.go:59-61 | the category passes iff it is "nature", "heritage" or "museums" |
| Attractions.ValidNameCanGiveEmptyId | attraction.go:42-44 | four Lithuanian letters pass the name length rule yet give the empty id |
| Attractions.Wrap | attraction.go:80-93 | the id comes from the untrimmed name, the stored name is trimmed, the description is marshalled with the trimmed name, and url and copyright are valid iff non-empty |
| Attractions.IdIgnoresSurroundingSpaces | attraction.go:82-84 | when the only white space is ' ', the id of the name equals the id of the stored trimmed name |
| Attractions.IdKeepsLeadingWhiteSpace | attraction.go:82-84 | other white space, such as a tab, is trimmed from the name but kept in the id |
| Sql.StatementPlaceholders | db.go:20-29 | a placeholder-free head plus n groups of k placeholders joined by "," holds k·n placeholders |
| Sql.TitlesPlaceholdersMatchArgs | db.go:20-29 | the titles statement for n titles holds 2n placeholders, one per argument |
| Sql.DestinationsPlaceholdersMatchArgs | db.go:158-168 | the export statement for n attractions holds 5n placeholders, one per argument |
| Store.ValueOf | db.go:46-47 | a nullable string binds NULL iff it is invalid, else its text |
| Store.RowOf | db.go:46-47 | the inserted row has text in id, category, description and location, and NULL url or copyright iff invalid |
| Store.Select | db.go:99 | SELECT * returns a row's values in the declared column order |
| Store.ScanAttraction | db.go:110-117 | the scan succeeds iff there are six values and the first four are not NULL; it fills id, category, location, description, copyright, url in that order and leaves the name "" |
| Store.ScanNullString | db.go:114 | scanning into a NullString keeps the stored value |
| Store.GetTitleFields | db.go:239-246 | two parallel slices of length len(ts) holding compare and display |
| Store.BuildTitlesInsert | db.go:20-29 | one "(?, ?)" group per title joined by "," with no trailing comma, and 2n arguments interleaving compare and display |
| Store.BuildDestinationsInsert | db.go:158-167 | one five-placeholder group per attraction and, per attraction, the arguments id, category, description, location, copyright |
| Store.CacheContents | db.go:107-126 | a successful read returns one attraction per row and at least one |
| Store.Cache.CommitAttraction | db.go:37-60 | all or nothing: the first failing step's error with both tables unchanged, or one new row in each table |
| Store.Cache.ReadTitles | db.go:64-89 | a failed query gives "Failed to read cache"; otherwise every title in order, as parallel slices, even when there are none |
| Store.Cache.ReadCache | db.go:93-128 | a failed query gives "Failed to read cache"; otherwise the rows scanned in order, "Failed to read row" or "Cache is empty" |
| Store.ScanOrderRoundTrip | db.go:114 | when the table declares the scan order, an attraction reads back as committed except for its name |
| Store.InsertOrderSwapsFields | db.go:114 | when the table declares the insert order, description and location, and url and copyright, come back swapped |
| Store.CacheContentsCases | db.go:112-124 | an empty table is "Cache is empty"; a row that cannot be scanned makes the read "Failed to read row" |
| Store.ExternalDb.CommitAttractionsToDB | db.go:149-174 | an open error is returned untouched; otherwise the insert's error is returned, the rows are exported, and the DELETE on that same database empties it when it succeeds |
| Store.Exported | db.go:160-165 | one external row per attraction, in order, without url and name |
| Store.Texts | db.go:208-212 | the descriptions scan iff none is NULL, and then as their texts |
| Store.TitlesFor | db.go:208-219 | one title per target row, built from the name in the map after that row |
| Store.InitializeTitles | db.go:179-225 | the four error messages in source order, else "Done" with one title per target row appended when the insert succeeds, and nothing else changed |
| Store.MergeDecoded | db.go:215 | Unmarshal into the reused map: an object adds or overwrites its keys and keeps the others, null empties the map, anything else leaves it unchanged |
| Store.StaleNameCarriesOver | db.go:215-217 | a row whose description stores no "name" (malformed, or an object without the key) repeats the previous row's title, because the map is not reset between rows |
| Store.NullGivesEmptyTitle | db.go:215-217 | a row whose description is the JSON literal null gets the empty title, because null sets the map to nil |
| Store.FreshNameIsUsed | db.go:215-217 | a row whose description has a "name" gets that name and its id |
| Retrieve.Requests | retrieve.go:123-131 | getUrls makes at most one request per attraction |
| Retrieve.Survivors | retrieve.go:64-118 | a filter keeps at most its input |
| Retrieve.Step | retrieve.go:64-118 | a stage never changes an item's id or url |
| Retrieve.Batch.Append | retrieve.go:126 | Go's append adds the item at the end and keeps failed, growing into a fresh array when full |
| Retrieve.Batch.GetUrls | retrieve.go:123-131 | appends a request per attraction with a url and the id of every other one to failed, in order, keeping earlier contents |
| Retrieve.Batch.Filter | retrieve.go:67-83 | the in-place filter leaves exactly the survivors in the same backing array and appends the failed ids |
| Retrieve.FilterInPlace | retrieve.go:92-117 | writing survivors from the front of the array being read yields the survivors in order and the failures in order |
| Retrieve.Batch.Download | retrieve.go:64-84 | keeps exactly the items whose request succeeds, in order, and appends the others' ids |
| Retrieve.Batch.Process | retrieve.go:89-118 | keeps exactly the items that decode and crop, in order, and appends the others' ids |
| Retrieve.Batch.Save | retrieve.go:136-153 | keeps every item and appends the id of each item whose file cannot be created or written |
| Retrieve.Entries | retrieve.go:159-166 | one entry per item, in order, with its id and the base64 of its bytes |
| Retrieve.Send | retrieve.go:158-176 | builds the entries, each of which decodes back to the item's downloaded bytes |
| Retrieve.SentImagesDecode | retrieve.go:164 | each posted image decodes to the raw downloaded bytes, not the cropped image |
| Retrieve.RequestsPartition | retrieve.go:123-131 | getUrls sends every attraction id to exactly one of the two slices |
| Retrieve.FilterPartition | retrieve.go:64-118 | a filter sends every item's id to exactly one of survivors and failures |
| Retrieve.FilterConserves | retrieve.go:64-118 | survivors plus failures are as many as the input |
| Retrieve.PipelineConserves | retrieve.go:41-47 | after getUrls, download and process, every cached id is in toDownload or in failed exactly once |
| Retrieve.PipelineCount | retrieve.go:41-47 | len(toDownload) + len(failed) equals the number of cached attractions |
| Retrieve.DownloadedHoldBodies | retrieve.go:71-79 | every downloaded item holds the body fetched from its url |
| Retrieve.ProcessedHoldImages | retrieve.go:97-115 | every processed item's bytes decode and it holds the cropped image |
| Retrieve.SaveFailuresBounded | retrieve.go:136-153 | save reports at most one failure per item |
| Retrieve.Transfer | retrieve.go:33-58 | with a url in parts[2] the pipeline's items are posted and the sent message returned, else they are saved and the failure message returned |
| Retrieve.Merge | retrieve.go:21-59 | a read or export failure gives "Failed to merge: " and its error with no image work; otherwise the result of the image pipeline. After a successful read the external table is unchanged on an open error, emptied when the DELETE succeeds, else grown by the exported rows when the insert succeeds |
| Server.Scores | server.go:83-85 | the score of the query id against each cached id |
| Server.Select | server.go:82-88 | the loop keeps at most one name per title |
| Server.CheckAvailability | server.go:70-91 | a failed read is 500 "Failed to read cache"; otherwise 200 with the matches in cache order, or the handler's panic |
| Server.SelectStaysAborted | server.go:85 | once compareID has panicked, so has the handler |
| Server.SelectAbortedIffPanic | server.go:82-88 | the loop panics exactly when one of the scores is a panic |
| Server.SelectByThreshold | server.go:82-88 | a name is returned exactly when its score meets the threshold |
| Server.PanicIffOneSideEmpty | utils.go:40-56 | compareID panics exactly when one side is empty |
| Server.AbortedIffOneSideEmpty | server.go:82-88 | checkAvailability panics exactly when some cached id is empty while the query id is not, or the other way round |
| Server.MatchesSelectsByThreshold | server.go:82-88 | a display name is returned exactly when compareID of the query id and its cached id is at least 0.5 |
| Server.ExactTitleIsReturned | server.go:85 | a title whose id equals the query id is always returned |
| Server.EmptyIdAborts | server.go:72 | a name whose id is empty panics against any cache holding a non-empty id |
| Server.AddAttraction | server.go:45-65 | 400 with the validation message and the cache unchanged, 500 with the commit error and the cache unchanged, or 200 with no body and one new row and title |
| Commands.HandleCommand | main.go:33-60 | merge gets at least two pieces that join back to the command; initialize gets a path without spaces |
| Commands.SplitAfterWord | main.go:34 | a word followed by a space is the first piece |
| Commands.FirstPiece | main.go:41 | the first piece is w iff the command is w alone or starts with w and a space |
| Commands.NotRecognizedIff | main.go:41-58 | "Command not recognized" is returned iff the command is neither word, alone or followed by a space, which includes the empty command |
| Commands.NoDestinationIff | main.go:43-54 | "No destination db provided" is returned iff the command is exactly "merge" or "initialize" |
| Commands.MergeGetsPieces | main.go:49 | "merge " + rest runs merge with "merge" followed by the pieces of rest |
| Commands.InitializeGetsPath | main.go:56 | initialize runs on the text up to the next space, whatever follows it |
| Commands.LeadingSpaceRefused | main.go:34-58 | a leading space gives an empty first piece, so the command is refused |

## Left out

- HTTP: server start-up, routing, header writing in `respond`, `http.Get`
  and `http.Post`. A response is modelled as its status and the value
  marshalled. A fetch is a parameter, and the POST and its failure message
  are not modelled.
- JSON: `validateJson` and its error messages (the decoding result is a
  parameter of `ValidateAttraction`), and `json.Marshal` in `wrap`, which is
  a parameter. `json.Unmarshal` in `initializeTitles` is a parameter that
  classifies each description as malformed, `null`, or an object together
  with the keys Go stores for it.
- The sqlite driver: connections, `getConnection`'s open and reuse, and
  the query, scan and exec mechanics. Each call's outcome is a parameter.
  The order of the columns in the cache schema is not part of the source,
  so it is a parameter of `Store.Cache`.
- Store.Cache.ReadCache: the error of `getConnection` is ignored in the
  source. Only the outcome of the query is modelled.
- Store.Cache.ReadTitles: the model assumes the `titles` table has exactly
  two text columns, in the order (compare, display), as the INSERT of
  `commitTitles` names them. The schema is not part of the source. Under
  that assumption every row scans, because only non-NULL strings are
  inserted, so the "Failed to read row" branch is not modelled. A table
  declared differently could make that branch reachable.
- Store.InitializeTitles: the error of the final insert is ignored in the
  source. The model shows it only through whether the titles were
  appended.
- Image work: decoding, the bicubic resize to 1200 pixels, the 3:2 crop and
  JPEG encoding at quality 80 are foreign libraries with floating-point
  internals. They are parameters that succeed or fail. File creation is a
  parameter too, and the deferred `file.Close` is not modelled.
- Floats: the float32 score is the integer pair (2·intersect,
  len(a)+len(b)-2), with NaN and +Inf decided as float32 comparison would
  decide them. The float32 coordinates are reals compared with the decimal
  bounds, and float32 rounding of the bounds is not modelled.
- Unicode:
  - `compareID` works on characters, which are Go's bytes exactly for ASCII
    ids. Multi-byte runes are not split into bytes.
  - `strings.ToLower` is modelled for U+0000 to U+017F (Basic Latin,
    Latin-1 Supplement, Latin Extended-A) and is the identity elsewhere.
- Attractions.Wrap: `wrap` trims the name inside the caller's record in
  place. No caller reads the record afterwards, so the model returns the
  built attraction only.
- Concurrency and standard input: the goroutines in `main` and
  `handleCommand`, and the scanning of standard input in
  `listenForCommands`.
- Commands.HandleCommand: it returns which call it makes and with what
  argument. The calls themselves are modelled by `Retrieve.Merge` and
  `Store.InitializeTitles`.
- The debugging `print` methods and `handleError`, which nothing in the
  core calls.
