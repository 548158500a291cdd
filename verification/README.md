# MyProxy, verified model

MyProxy lets MySQL clients work against PostgreSQL. This project models the four parts of it that keep state or
transform data and proves what they promise:

1. **Change data capture** (`Bytes`, `Digits`, `Scanning`, `Decimal`, `DecimalTheorems`, `Values`, `Rows`, `Events`,
   `Packets`, `Datetime2`, `Streamer`, `Server`, `SourceValues`, `Broadcast`, `Cdc`, `ResumePosition`). PostgreSQL changes become MySQL
   binlog bytes. Each encoder is a method proved against a specification, and each specification is the inverse of a
   reference decoder written here, because the decoder the source says it reverses is not in the repository. `Cdc` joins
   all of it: the source holds typed PostgreSQL values and sends them as text, and a replica that decodes the bytes of any
   run of changes shows, transaction by transaction, the same numbers, floats and texts in the same rows, whatever the text
   looked like on the way.
2. **Buffered rotating log** (`BinlogWriter`). A class with a fixed buffer, a cursor and rotation whose abstract value is
   an unbuffered append-only log.
3. **SQL text passes** (`Placeholders`, `Words`, `TypeNames`, `Parens`). Scanner loops proved equal to substitutions on
   whole tokens, with the laws those substitutions have.
4. **Session and schema cache** (`Sessions`, `SchemaCache`). State machines that run against a backend whose answers are
   inputs.

Bytes are the integers 0..255. Go strings are byte sequences in the replication and log packages and ASCII `seq<char>` in
the SQL passes. Floats are bit patterns, the checksum is any function of the bytes it covers, and clocks, I/O outcomes,
interleavings and backend answers are inputs, so every theorem holds for all of them. Fixed-width integers wrap or are cut
where the source's types do so and it matters: lengths, sizes, ids, the 32-bit position, packet numbers.

The reference readers are written in the numbers of the protocols they read (event types, type codes, table widths), not in
the constants of the model, and share no table with the encoders.

Methods that change state or fill buffers are proved equal to functions (`r == DecimalBytes(s, meta)`,
`View() == AppendEvent(old(View()), …)`); the theorems are about those functions, so they hold of the methods.

## Findings

Places where a promise fails as the code stands. Each has a lemma at a concrete input, or for all inputs of a kind, and a
theorem that says exactly when the promise holds.

- An `oid` of 2^31 or more is replicated as 0 (`SourceValues.OidSurvivesIff`, `SourceValues.LargeOidBecomesZero`).
- A `bytea` value never arrives: the replica gets its hexadecimal text (`SourceValues.ByteaNeverSurvives`, for every value).
- Fractional seconds and zone offsets of a timestamp are dropped: the text survives exactly when there are none
  (`Values.DatetimeSuffixDropped`).
- Relation messages carry no nullability, so table maps announce every column as not nullable (`Cdc.NeverNullable`, for every
  table).
- A text longer than its length prefix can say, 65535 bytes for TEXT, is not read back (`Values.PrefixedRoundTrip`,
  `Values.LongTextIsLost`).
- A table without columns encodes any number of rows as no bytes, so the rows are lost (`Rows.RowsRoundTrip`,
  `Rows.ZeroColumnRowIsLost`).
- An event of 2^24 − 2 bytes or more does not come out of its packet: the length announces a continuation or is cut
  (`Packets.PacketRoundTripIff`, `Packets.LargeEventIsLost`).
- The resume position is safe for a stream exactly when each change ends after all messages before it. Interleaved
  transactions, which arrive in commit order, break this (`ResumePosition.SafeIffOrdered`,
  `ResumePosition.InterleavedTransactionsAreUnsafe`).
- Packets reach the wire out of order exactly when one is written while another numbered before it is unwritten, for example
  a data packet before the format description (`Broadcast.PacketNumbers`, `Broadcast.RacedWireOrder`).
- A log record larger than the whole buffer leaves the writer unusable (`BinlogWriter.Writer.WriteEvent`,
  `BinlogWriter.OversizedRecordPanics`).
- The prepared-statement recount reads `?5` as fifteen parameters and a literal `$9` as nine (`Placeholders.RecountIsCount`,
  `Placeholders.RecountCanBeWrong`, `Placeholders.RecountReadsLiterals`).
- A COMMIT that the server fails ends PostgreSQL's transaction while the session still believes in it
  (`Sessions.SessionAgreement`, `Sessions.FailedCommitDisagrees`); after an explicit COMMIT with autocommit off, statements
  run outside any transaction (`Sessions.AutocommitLapsesIff`, `Sessions.AutocommitOffWithoutTransaction`).
- Two schemas share cache keys exactly when one's name, with a dot behind it, opens the other's
  (`SchemaCache.KeysCollideIff`, `SchemaCache.DottedKeysCollide`). DDL invalidates an entry only under the same spelling
  (`SchemaCache.InvalidationReachesIff`, `SchemaCache.OtherSpellingStaysStale`). An answer obtained without a connection is
  cached, and is wrong exactly when there was a column to find (`SchemaCache.AnswerReflectsDatabaseIff`,
  `SchemaCache.MissingConnectionIsRemembered`).

No promise fails here, but neither is apparent from the code: the loop of `removeLeadingTableGroupParens` never removes more
than one pair, because what is left starts with a quote or a blank (`Parens.RemoveLeadingTableGroupParens`); and a client is
registered before its format description is sent, so an event can reach it first (`Broadcast.EventBeforeGreeting`).

## Model

| member | source | states |
|---|---|---|
| `Decimal.LayoutCounts` | pkg/replication/binlog_encoder.go:752-771 | for every metadata word the digit groups hold exactly the integer and fraction digits in exactly binSize bytes, and binSize is positive, so the branch for zero is unreachable |
| `Decimal.GroupBytesMinimal` | pkg/replication/binlog_encoder.go:24 | every entry of the width table is the narrowest that leaves the top bit free |
| `Decimal.PutDecimalValue` | pkg/replication/binlog_encoder.go:855-872 | one group's big-endian bytes go in at the cursor through the sign mask and nothing else changes |
| `Decimal.PutNines` | pkg/replication/binlog_encoder.go:802-832 | the loop over nine-digit groups extends the packed digits group by group, the cursor moving four bytes each |
| `Decimal.EncodeDecimal` | pkg/replication/binlog_encoder.go:705-852 | filling the buffer through the cursor ends exactly at binSize and gives the sign-flipped, masked packing of the stored digits, for every input text and metadata word |
| `Digits.ParseUintOfText` | pkg/replication/binlog_encoder.go:793-843 | a group of digits with another character in it counts as zero |
| `DecimalTheorems.DecimalExact` | pkg/replication/binlog_encoder.go:705-852 | for every numeral and metadata word the reference decoder returns the sign and floor(abs(v)·10^s) modulo 10^(integer digits + s) |
| `DecimalTheorems.DecimalFloor` | pkg/replication/binlog_encoder.go:705-852 | the same in plain arithmetic: unscaled · 10^s / 10^places modulo 10^(integer digits + s) |
| `DecimalTheorems.DecimalRoundTripIffFits` | pkg/replication/binlog_encoder.go:705-852 | the decoded number equals the original exactly when no digit is lost on either side |
| `DecimalTheorems.ReducedIff` | pkg/replication/binlog_encoder.go:705-852 | the canonical form in which decimal values are compared is equal exactly for equal numbers |
| `DecimalTheorems.SettledValueIffFits` | pkg/replication/binlog_encoder.go:705-852 | storing a numeral and printing it again gives a numeral of the same value if and only if it fits |
| `DecimalTheorems.DecimalTextRoundTrip` | pkg/replication/binlog_encoder.go:705-852 | the canonical text of any sign and digits that fill the column comes back unchanged |
| `DecimalTheorems.DecimalSizeIsBinSize` | pkg/replication/binlog_encoder.go:752-771 | the size equals MySQL's own for the precision and the scale of the metadata word |
| `DecimalTheorems.MetaWord` | pkg/replication/binlog_encoder.go:705-756 | the metadata word is precision and then scale; precision 0 counts as 10 and a scale beyond the precision leaves no integer digits |
| `DecimalTheorems.DocumentedExample` | pkg/replication/binlog_encoder.go:705-852 | the bytes of 1234567890.1234 and its negative in DECIMAL(14,4) are those of the MySQL documentation |
| `DecimalTheorems.ServerDecimalWidth` | pkg/replication/server.go:588-589 | the server's DECIMAL(10,2) takes five bytes whatever the text |
| `DecimalTheorems.TopBitFree` | pkg/replication/binlog_encoder.go:845-849 | in every group layout the first packed byte leaves its top bit to the sign |
| `DecimalTheorems.DecimalOrder` | pkg/replication/binlog_encoder.go:705-852 | at one precision and scale, byte order of the encodings is the order of the kept numbers, negatives below, −0 directly below 0 |
| `DecimalTheorems.DecimalOrderIsNumericOrder` | pkg/replication/binlog_encoder.go:705-852 | for numerals that fit, byte order is numeric order across signs and different numbers of places |
| `Scanning.ScanOfIntText` | pkg/replication/pg_streamer.go:1103-1114 | scanning "%d" inverts printing for every 64-bit integer and fails beyond |
| `Scanning.ScanOfPrint` | pkg/replication/binlog_encoder.go:894-936 | scanning "%d" fields between separators inverts printing them zero-padded in any width, whatever text follows the last |
| `Scanning.ScanOfOther` | pkg/replication/binlog_encoder.go:894-936 | text that starts with no blank, sign or digit leaves every field zero |
| `Values.DateRoundTrip` | pkg/replication/binlog_encoder.go:894-915 | the three DATE bytes decode to the text they came from |
| `Values.ClockRoundTrip` | pkg/replication/binlog_encoder.go:918-936 | the three TIME bytes decode to the text they came from |
| `Values.DatetimeRoundTrip` | pkg/replication/binlog_encoder.go:1019-1040 | the eight DATETIME bytes decode to the text they came from |
| `Values.DatetimeSuffixDropped` | pkg/replication/binlog_encoder.go:1019-1040 | text behind the seconds never reaches the bytes: what comes back is the text without it, so the whole text survives if and only if there is none |
| `Values.PrefixedRoundTrip` | pkg/replication/binlog_encoder.go:1134-1218 | a length prefix of k bytes delimits a text, whatever follows, if and only if it is shorter than 256^k |
| `Values.LongTextIsLost` | pkg/replication/binlog_encoder.go:1174-1198 | a TEXT value of 65536 bytes is not read back |
| `Values.LengthWidthMinimal` | pkg/replication/binlog_encoder.go:1145-1159 | the length prefix is the narrowest that can say the declared maximum |
| `Values.TextLimits` | pkg/replication/binlog_encoder.go:1134-1218 | which texts fit: up to the declared maximum for VARCHAR, exactly up to 255 bytes for CHAR, 65535 for TEXT and 2^32 − 1 for JSON |
| `Values.BitValues` | pkg/replication/binlog_encoder.go:1224-1247 | a BIT column holds an integer of its width high byte first, and text leaves it all zero |
| `Values.IntegersWrap` | pkg/replication/binlog_encoder.go:585-673 | an integer of another width leaves its low bytes, and zero where its Go type is not taken |
| `Values.ValueRoundTrip` | pkg/replication/binlog_encoder.go:498-579 | each (type, metadata) encoding of a representable value is self-delimiting: the decoder returns the value, a decimal in the places of its column, with the same datum, and exactly what followed |
| `Values.CanonicalDecimalSettled` | pkg/replication/binlog_encoder.go:705-852 | a decimal already in the places of its column comes back as the same text |
| `Rows.NullBitExact` | pkg/replication/binlog_encoder.go:455-493 | bit i of a row's bitmap is set exactly when value i is NULL |
| `Rows.EncodeRow` | pkg/replication/binlog_encoder.go:466-490 | setting bits in place and appending values yields the bitmap of the NULLs followed by the other values in order |
| `Rows.EncodeRowData` | pkg/replication/binlog_encoder.go:455-493 | the row images follow one another without separators |
| `Rows.RowRoundTrip` | pkg/replication/binlog_encoder.go:455-493 | a representable row is read back off the front of any data with the same datum in every column |
| `Rows.RowsRoundTrip` | pkg/replication/binlog_encoder.go:455-493 | any number of representable rows decodes back with the same data, if and only if the table has a column or there is no row |
| `Rows.ZeroColumnRowIsLost` | pkg/replication/binlog_encoder.go:455-493 | one row of a table without columns decodes to no row |
| `Events.EncodeColumnMeta` | pkg/replication/binlog_encoder.go:315-371 | the metadata of the columns in order, in the width and byte order of each type |
| `Events.ColumnsRoundTrip` | pkg/replication/binlog_encoder.go:315-371 | types and metadata parse back column by column when each metadata word fits its type's bytes |
| `Events.EncodeTableMap` | pkg/replication/binlog_encoder.go:176-288 | the cursor fills the precomputed payload exactly |
| `Events.TableMapRoundTrip` | pkg/replication/binlog_encoder.go:176-288 | names up to 255 bytes, ids below 2^48, types, metadata and bitmap parse back |
| `Events.EncodeRowsEvent` | pkg/replication/binlog_encoder.go:375-452 | the cursor fills the payload exactly, with the second bitmap only when there is one |
| `Events.RowsEventRoundTrip` | pkg/replication/binlog_encoder.go:375-452 | under the table map of its table id a rows payload parses back to ids, bitmaps and rows |
| `Events.DefaultBitmaps` | pkg/replication/binlog_encoder.go:269-277 | bitmaps that are not given count as all ones |
| `Events.EncodeQuery` | pkg/replication/binlog_encoder.go:92-148 | the cursor fills the query payload exactly |
| `Events.QueryRoundTrip` | pkg/replication/binlog_encoder.go:92-148 | a query payload parses back to ids, status variables, schema and text |
| `Events.EncodeXid` | pkg/replication/binlog_encoder.go:151-156 | the eight little-endian bytes of the id |
| `Events.XidRoundTrip` | pkg/replication/binlog_encoder.go:151-156 | every 64-bit transaction id parses back |
| `Events.EncodeEvent` | pkg/replication/binlog_encoder.go:67-88 | header with the total size, payload, and the checksum of exactly the bytes before it |
| `Events.EventRoundTrip` | pkg/replication/binlog_encoder.go:40-88 | an event is read back whole off the front of any stream by its size field |
| `Events.StreamRoundTrip` | pkg/replication/binlog_encoder.go:40-88 | a concatenation of events splits into exactly the originals |
| `Packets.MakePacket` | pkg/replication/server.go:796-822 | the packet's length, number, status byte and data, the length cut to three bytes |
| `Packets.PacketRoundTripIff` | pkg/replication/server.go:796-822 | to a client that reads payloads over packets, an event comes out of its packet whole, whatever follows, if and only if its length with the status byte is below 0xFFFFFF |
| `Packets.LargeEventIsLost` | pkg/replication/server.go:796-822 | an event of 2^24 − 2 bytes does not come out |
| `Datetime2.EncodeDatetime2` | pkg/replication/binlog_encoder.go:1043-1081 | five big-endian bytes of the packed fields, then zero bytes for the fraction |
| `Datetime2.Datetime2RoundTrip` | pkg/replication/binlog_encoder.go:1043-1081 | the packed value never overflows 40 bits and decodes to the same six fields |
| `Datetime2.Datetime2Order` | pkg/replication/binlog_encoder.go:1043-1081 | byte order is chronological order |
| `Streamer.ConvertedEncodable` | pkg/replication/pg_streamer.go:931-1187 | whatever the text, the converted value has a Go type that the encoder of its MySQL column type handles |
| `Streamer.TypeCodes` | pkg/replication/pg_streamer.go:931-1057 | which PostgreSQL types become which MySQL type, in the numbers of both protocols |
| `Streamer.BooleanTexts` | pkg/replication/pg_streamer.go:1095-1100 | which texts of a boolean count as true |
| `Streamer.DecodeTuple` | pkg/replication/pg_streamer.go:1061-1090 | null, unchanged and text columns decode in place, unchanged ones from the fallback row when it has them |
| `Streamer.DecodeComplete` | pkg/replication/pg_streamer.go:1061-1090 | a complete tuple decodes to the converted source row |
| `Streamer.DecodeWithToast` | pkg/replication/pg_streamer.go:798-837 | filling unchanged columns from the decoded old row gives the new row if and only if those columns really are unchanged |
| `SourceValues.IntConverts` | pkg/replication/pg_streamer.go:1103-1114 | converting the text of an integer gives that integer exactly when it fits the Go type of its column, and 0 otherwise |
| `SourceValues.OidSurvivesIff` | pkg/replication/pg_streamer.go:1107-1110 | of all oids exactly those below 2^31 are replicated; the others become 0 |
| `SourceValues.LargeOidBecomesZero` | pkg/replication/pg_streamer.go:1107-1110 | oid 3000000000 becomes 0 |
| `SourceValues.ByteaNeverSurvives` | pkg/replication/pg_streamer.go:1148-1150 | every binary value is replaced by its hexadecimal text |
| `SourceValues.ValueConverts` | pkg/replication/pg_streamer.go:1093-1187 | every value its MySQL column can hold is converted, from the text the source prints, to a representable value that stands for the same datum |
| `SourceValues.RowConverts` | pkg/replication/pg_streamer.go:1061-1187 | so is every row |
| `Server.CreateTableMap` | pkg/replication/server.go:537-575 | one pass over the columns gives types, metadata and the bitmap of exactly the nullable columns |
| `Server.NullabilityExact` | pkg/replication/server.go:537-575 | bit i of the nullability bitmap is set exactly when column i is nullable |
| `Server.CreateRowsEvent` | pkg/replication/server.go:602-684 | all-ones presence bitmaps and the before and after images, new values standing in for missing old ones |
| `Server.PresentEverywhere` | pkg/replication/server.go:636-642 | every column is marked present |
| `Server.MissingOldRow` | pkg/replication/server.go:616-634 | a missing old row is replaced by the new one, in updates and deletions |
| `Server.ColumnMetas` | pkg/replication/server.go:578-599 | the declared lengths, widths, digits and places of the columns, by type code |
| `Server.ColumnMetaFits` | pkg/replication/server.go:578-599 | the metadata chosen for a type always survives the bytes a table map gives it |
| `Server.BinlogServer.ConvertToMySQLEvents` | pkg/replication/server.go:389-446 | the events and the new transaction counter for each kind of change |
| `Server.BinlogServer.ProcessChangeEvent` | pkg/replication/server.go:346-386 | the converted events, and a position advanced by 100 for each modulo 2^32 |
| `Server.EncodeBinlogEvent` | pkg/replication/binlog_encoder.go:40-88 | dispatch on the event type and framing give the bytes whose decoding the round trips describe |
| `Server.HeadersReadBack` | pkg/replication/server.go:389-515 | every event of a change is read back from its bytes with the event type of its kind, this server's id, the position before the change and a reading of the clock |
| `Server.StatementsReadBack` | pkg/replication/server.go:389-484 | a begin is read back as the query BEGIN, a truncation as a statement naming schema and then table, a commit as an XID |
| `Server.GtidsConsecutive` | pkg/replication/server.go:389-515 | over every run the GTIDs are consecutive from the counter, LastCommitted is one less, and the counter ends at the last |
| `Server.RowsFollowTheirTableMap` | pkg/replication/server.go:409-416 | in every run each rows event directly follows a table map with the same id, columns, types and metadata |
| `Server.PositionCountsEvents` | pkg/replication/server.go:384-385 | over every run the position is start + 100·(events emitted) modulo 2^32 |
| `Server.LogPosCountsEventsBefore` | pkg/replication/server.go:449-515 | the log position in every header of a change counts the events emitted before that change |
| `Cdc.SendsIffKnown` | pkg/replication/pg_streamer.go:767-869 | a row change sends an event exactly when its relation was announced |
| `Cdc.NeverNullable` | pkg/replication/pg_streamer.go:708-736 | every column of every table is announced as not nullable |
| `Cdc.ConvertedChange` | pkg/replication/pg_streamer.go:767-869 | an insert, update or delete becomes its table map and its full row images, unchanged columns filled in |
| `Cdc.BeginStep` | pkg/replication/server.go:392-403 | the bytes of a begin open a transaction at the replica |
| `Cdc.CommitStep` | pkg/replication/server.go:404-407 | the bytes of a commit make the open transaction visible |
| `Cdc.RowChangeStep` | pkg/replication/server.go:346-386 | a replica that mirrors the source decodes the bytes of one row change, into the table of the source's name, and mirrors the changed source |
| `Cdc.CdcFidelity` | pkg/replication/pg_streamer.go:664-869 | for every run of transactions of inserts, updates and deletes on known tables, of values their MySQL columns can hold and with complete old tuples, a transactional replica decodes the whole byte stream and shows, table by table, exactly what the source has committed: equal integers, equal decimal numbers, equal float bits, equal texts |
| `Cdc.CommitShowsSource` | pkg/replication/pg_streamer.go:664-869 | at every commit the visible data of the replica is the data of the source tables |
| `Broadcast.StepKeeps` | pkg/replication/server.go:283-386 | each atomic step of connecting, numbering, writing, broadcasting and removing keeps what holds of every client |
| `Broadcast.JoinAndLeave` | pkg/replication/server.go:283-303 | connecting registers a client from the next change on, removing one ends its part |
| `Broadcast.LeavingIsFinal` | pkg/replication/server.go:872-889 | a client that was removed is sent nothing more |
| `Broadcast.ClientGetsContiguousSlice` | pkg/replication/server.go:346-386 | in every interleaving a client whose writes succeed has got, apart from format descriptions and heartbeats, the events of one contiguous slice of the history in order |
| `Broadcast.ClientGetsEverythingWhenIdle` | pkg/replication/server.go:346-386 | between changes that slice is everything from joining to now, or to leaving |
| `Broadcast.PacketNumbers` | pkg/replication/server.go:796-822 | assigned numbers are 1, 2, 3, … modulo 256 without gap or repeat, the wire carries exactly the written ones, and in that order if and only if no packet was written while one numbered before it was unwritten, which takes overlapping sends |
| `Broadcast.InOrderNumbers` | pkg/replication/server.go:796-822 | in order, the k-th packet on the wire carries k modulo 256 |
| `Broadcast.RacedWireOrder` | pkg/replication/server.go:796-869 | a run in which packet 2 reaches the wire before packet 1 |
| `Broadcast.OneGreeting` | pkg/replication/server.go:283-329 | apart from events a client is sent one format description and after it only heartbeats |
| `Broadcast.EventBeforeGreeting` | pkg/replication/server.go:300-319 | a run in which an event reaches a client before its format description |
| `ResumePosition.PGStreamer.HandleXLogData` | pkg/replication/pg_streamer.go:664-676 | exactly the events whose relation is known and whose own send succeeds are handed over, one per relation of a truncation; then the position moves behind the message |
| `ResumePosition.EventsOfMessages` | pkg/replication/pg_streamer.go:767-909 | which events each kind of message hands over |
| `ResumePosition.ForeignCheckpointIgnored` | pkg/replication/pg_streamer.go:105-137 | a checkpoint of another slot counts for nothing |
| `ResumePosition.PositionsMove` | pkg/replication/pg_streamer.go:568-676 | deliveries, saves, confirmations and restarts do move the positions |
| `ResumePosition.PGStreamer.SaveCheckpoint` | pkg/replication/pg_streamer.go:140-175 | the checkpoint that is saved loads back to the live position |
| `ResumePosition.ResumeIsSafe` | pkg/replication/pg_streamer.go:105-175 | over any reconnects, saves, confirmations and restarts, every event of a change that ends at or before the live, saved or confirmed position has been handed over |
| `ResumePosition.SafeIffNothingMissingBelow` | pkg/replication/pg_streamer.go:1190-1236 | with events given up or relations unknown, the live position is safe exactly when all those still missing end after it |
| `ResumePosition.SafeIffOrdered` | pkg/replication/pg_streamer.go:568-676 | the position rule is safe in every clean run of a stream if and only if each change ends after the messages before it |
| `ResumePosition.InterleavedTransactionsAreUnsafe` | pkg/replication/pg_streamer.go:664-676 | two interleaved transactions delivered in commit order make the position unsafe |
| `BinlogWriter.SerializeBinary` | pkg/binlog/binlog.go:362-419 | the cursor fills the record exactly |
| `BinlogWriter.RecordRoundTrip` | pkg/binlog/binlog.go:362-419 | a record decodes to its event's fields in front of anything |
| `BinlogWriter.Writer.constructor` | pkg/binlog/binlog.go:169-206 | opening continues the highest file, or starts the next one when that is full |
| `BinlogWriter.OpenLogContinues` | pkg/binlog/binlog.go:169-232 | the highest file is continued byte for byte exactly when it is below the limit; otherwise the next one starts with the header |
| `BinlogWriter.NothingOnDiskIsLost` | pkg/binlog/binlog.go:169-466 | over every run each file found on disk still begins with its bytes |
| `BinlogWriter.Writer.CreateNewFile` | pkg/binlog/binlog.go:209-232 | the header is written exactly when the file is new or empty |
| `BinlogWriter.Writer.FlushBuffer` | pkg/binlog/binlog.go:422-439 | flushing leaves the unbuffered log and the position as they are |
| `BinlogWriter.Writer.RotateFile` | pkg/binlog/binlog.go:442-466 | rotation closes the file with everything buffered and opens the next with its header |
| `BinlogWriter.Writer.WriteEvent` | pkg/binlog/binlog.go:311-359 | the writer stands for the unbuffered log with the record appended and its exact offset stamped, and stays usable, if and only if the record fits the buffer |
| `BinlogWriter.OversizedRecordPanics` | pkg/binlog/binlog.go:311-359 | the smallest record panics with a buffer of 40 bytes in sync mode |
| `BinlogWriter.Writer.GetPosition` | pkg/binlog/binlog.go:517-524 | the position is the length of the unbuffered current file |
| `BinlogWriter.Perform` | pkg/binlog/binlog.go:268-359 | any run of writes and timed flushes leaves the writer standing for the log of its writes |
| `BinlogWriter.StampedPositionsDecode` | pkg/binlog/binlog.go:311-419 | over every run, decoding at a stamped position returns that event's fields |
| `BinlogWriter.FilesAreTiledAndBounded` | pkg/binlog/binlog.go:311-466 | over every run no record spans two files, a file opened by rotation starts with the header of one of the writes, and a rotated file is at least MaxFileSize long and, unless it began beyond it, less than MaxFileSize plus the buffer size |
| `Placeholders.ConvertPlaceholders` | pkg/sqlrewrite/pg_generator.go:78-126 | the scanner's output and count equal the numbering of the unquoted, unescaped question marks |
| `Placeholders.NumberingByPosition` | pkg/sqlrewrite/pg_generator.go:78-126 | character by character, the i-th such mark becomes $i, every other character stays, and the count is exact |
| `Placeholders.PlaceholderByParity` | pkg/sqlrewrite/pg_generator.go:78-126 | with one kind of quote and no backslash, a question mark is a placeholder exactly behind an even number of quotes |
| `Placeholders.EscapedByParity` | pkg/sqlrewrite/pg_generator.go:90-101 | a character is escaped exactly behind an odd number of backslashes in a row |
| `Placeholders.OtherQuoteInert` | pkg/sqlrewrite/pg_generator.go:103-114 | inside a string the other kind of quote is an ordinary character |
| `Placeholders.UndoNumbered` | pkg/sqlrewrite/pg_generator.go:78-126 | for text without a dollar sign an undo scan without any quote state recovers the input |
| `Placeholders.FallbackConvert` | pkg/sqlrewrite/rewriter.go:156-203 | the fallback's loop, with its two-character steps, equals its specification |
| `Placeholders.FallbackAgrees` | pkg/sqlrewrite/rewriter.go:156-203 | on every backslash-free text both implementations give the same output |
| `Placeholders.FallbackDiffersOnBackslash` | pkg/sqlrewrite/rewriter.go:156-203 | an escaped question mark is where they differ |
| `Placeholders.CountParams` | pkg/sqlrewrite/rewriter.go:214-239 | the recount is the highest number after a dollar sign |
| `Placeholders.ReadDec` | pkg/sqlrewrite/rewriter.go:222-233 | parsing decimal digits inverts printing |
| `Placeholders.RecountIsCount` | pkg/sqlrewrite/rewriter.go:214-239 | for every text the recount equals the number of placeholders if and only if no placeholder runs into digits that read beyond that number and no dollar sign of the text carries a larger one |
| `Placeholders.RecountWithoutDigits` | pkg/sqlrewrite/rewriter.go:214-239 | it does whenever no converted mark is directly followed by a digit |
| `Placeholders.RecountCanBeWrong` | pkg/sqlrewrite/rewriter.go:214-239 | one placeholder recounted as fifteen |
| `Placeholders.RecountReadsLiterals` | pkg/sqlrewrite/rewriter.go:214-239 | a literal dollar number recounted as nine parameters |
| `Words.ReplaceWord` | pkg/sqlrewrite/pg_generator.go:1359-1389 | the search-and-splice loop terminates and replaces exactly the maximal identifiers equal to the word |
| `Words.CharacterCodes` | pkg/sqlrewrite/pg_generator.go:1392-1394 | which characters make up identifiers |
| `Words.MapTwice` | pkg/sqlrewrite/pg_generator.go:1340-1353 | two substitution passes are one pass with the combined table |
| `TypeNames.ReplaceDoubleType` | pkg/sqlrewrite/pg_generator.go:1397-1441 | the loop terminates and turns exactly the whole identifiers DOUBLE, in any case, that PRECISION does not follow into DOUBLE PRECISION |
| `TypeNames.DoublesIdempotent` | pkg/sqlrewrite/pg_generator.go:1397-1441 | that pass changes nothing the second time |
| `TypeNames.PassesCommute` | pkg/sqlrewrite/pg_generator.go:1310-1356 | the DOUBLE pass commutes with every substitution that does not touch its words |
| `TypeNames.ConvertTypes` | pkg/sqlrewrite/pg_generator.go:1310-1356 | the eleven passes are the DOUBLE pass followed by one simultaneous substitution |
| `TypeNames.ConvertTypesIdempotent` | pkg/sqlrewrite/pg_generator.go:1310-1356 | converting twice is converting once |
| `TypeNames.TypeWordConverted` | pkg/sqlrewrite/pg_generator.go:1338-1353 | each of the ten type words becomes its PostgreSQL name wherever it stands as a whole word |
| `TypeNames.DoubleConverted` | pkg/sqlrewrite/pg_generator.go:1397-1441 | a whole word DOUBLE in any case becomes DOUBLE PRECISION unless PRECISION follows |
| `TypeNames.OtherNamesUntouched` | pkg/sqlrewrite/pg_generator.go:1310-1441 | an identifier that is neither a type name nor DOUBLE is untouched by the whole conversion wherever it stands, and the text around it is converted on its own |
| `TypeNames.TinytextColUntouched` | pkg/sqlrewrite/pg_generator.go:1310-1441 | tinytext_col is such an identifier |
| `Parens.FindMatchingParen` | pkg/sqlrewrite/pg_generator.go:654-672 | the least index where the depth returns to zero, or −1 exactly when there is none |
| `Parens.MatchIsPair` | pkg/sqlrewrite/pg_generator.go:654-672 | what stands between matching parentheses is balanced |
| `Parens.PairKeepsShape` | pkg/sqlrewrite/pg_generator.go:1642-1685 | removing one matched pair around a quoted name keeps the text, keeps balance in both directions, and keeps every parenthesis that opens a SELECT |
| `Parens.RemoveTableParentheses` | pkg/sqlrewrite/pg_generator.go:1662-1695 | the loop terminates and drops exactly the pairs that hold a quoted name and no parenthesis |
| `Parens.DropPair` | pkg/sqlrewrite/pg_generator.go:1662-1695 | a pair around a quoted name without parentheses is dropped |
| `Parens.RemoveLeadingTableGroupParens` | pkg/sqlrewrite/pg_generator.go:1612-1654 | the loop terminates and opens exactly one leading group when there is one that ends the clause or is followed by a comma, and otherwise only trims |
| `Parens.GroupIsRemoved` | pkg/sqlrewrite/pg_generator.go:1612-1654 | a leading group of a quoted name, alone or before a comma, is opened |
| `Parens.SpaceCodes` | pkg/sqlrewrite/pg_generator.go:1613-1698 | the blanks that are trimmed |
| `Parens.ClauseKeepsShape` | pkg/sqlrewrite/pg_generator.go:1598-1607 | both removals together keep the text up to blanks at its ends, the balance, and the parentheses of every SELECT |
| `Sessions.Session.SetAutocommit` | pkg/session/session.go:200-230 | the flag changes even when the command it sends fails; the transaction flag only when it succeeds |
| `Sessions.Session.BeginTransaction` | pkg/session/session.go:232-252 | BEGIN is sent only outside a transaction and the flag is set only on success |
| `Sessions.Session.CommitTransaction` | pkg/session/session.go:254-274 | COMMIT is sent only inside a transaction and the flag is cleared only on success |
| `Sessions.Session.RollbackTransaction` | pkg/session/session.go:276-296 | ROLLBACK is sent only inside a transaction and the flag is cleared only on success |
| `Sessions.Session.Close` | pkg/session/session.go:298-313 | a transaction is rolled back before the connection is let go |
| `Sessions.ConnectionHandler.EnsurePGConn` | pkg/protocol/mysql/handler.go:98-126 | a connection is acquired once and its search path set before anything else is sent |
| `Sessions.ConnectionHandler.UseDB` | pkg/protocol/mysql/handler.go:128-145 | refused inside a transaction; otherwise the database changes and the path is marked set only when the backend accepts it |
| `Sessions.ConnectionHandler.HandleQuery` | pkg/protocol/mysql/handler.go:147-212 | the dispatch of USE, SET autocommit, BEGIN, COMMIT, ROLLBACK and other statements |
| `Sessions.StepKeepsIff` | pkg/protocol/mysql/handler.go:98-212 | one request keeps session and backend in agreement if and only if it is not a COMMIT that the server fails |
| `Sessions.SessionAgreement` | pkg/session/session.go:200-313 | over every run from a new connection, the transaction flag equals the backend's status and a set search path matches the database at every instant, if and only if the server fails no COMMIT |
| `Sessions.FailedCommitDisagrees` | pkg/session/session.go:254-274 | BEGIN and then a COMMIT that the server fails, from a new connection, leave the session in a transaction that the backend has ended |
| `Sessions.StepKeepsPath` | pkg/protocol/mysql/handler.go:98-212 | failed COMMITs included, every request keeps: a set search path is the database's, and the backend is in a transaction only when the session says so |
| `Sessions.RollbackRepairs` | pkg/session/session.go:276-296 | after such a COMMIT a ROLLBACK that is carried out restores agreement |
| `Sessions.DatabaseFixedInTransaction` | pkg/protocol/mysql/handler.go:128-145 | over every run of requests inside a transaction, whatever the backend answers, the database stays the same |
| `Sessions.DatabaseIsLastAsked` | pkg/protocol/mysql/handler.go:128-145 | over every run the session's database is the last one asked for and not refused |
| `Sessions.UseSetsPath` | pkg/protocol/mysql/handler.go:128-145 | a change of database that reports success has set the backend's search path to exactly that name |
| `Sessions.StatementsRunInDatabase` | pkg/protocol/mysql/handler.go:98-145 | after every run, whatever the backend answers, a set search path is that of the last database asked for, public when there is none, and the next statement sent runs under it |
| `Sessions.BackendDoesAsAsked` | pkg/session/session.go:200-296 | over every run in which the server fails no COMMIT, the backend has kept exactly the statements that the requests, read on their own, commit, and has a transaction open exactly when they say so |
| `Sessions.DeliveredIff` | pkg/protocol/mysql/handler.go:98-126 | a request is dispatched exactly when there is a connection whose search path is or can be set |
| `Sessions.SucceedsIff` | pkg/protocol/mysql/handler.go:147-212 | exactly when each request reports success |
| `Sessions.AutocommitLapsesIff` | pkg/session/session.go:200-296 | exactly which requests leave autocommit off without a transaction |
| `Sessions.AutocommitOffWithoutTransaction` | pkg/session/session.go:200-296 | SET autocommit=0 and then COMMIT leave autocommit off without a transaction |
| `SchemaCache.Cache.GetAutoIncrementColumn` | pkg/schema/cache.go:113-137 | a hit answers from the entry; otherwise the direct query's answer is returned and stored with the current time to live |
| `SchemaCache.Cache.InvalidateTable` | pkg/schema/cache.go:184-187 | removes that key and nothing else |
| `SchemaCache.Cache.InvalidateAll` | pkg/schema/cache.go:190-195 | visiting the entries in any order removes all of them |
| `SchemaCache.Cache.RefreshTable` | pkg/schema/cache.go:198-203 | answers the direct query whatever was cached |
| `SchemaCache.Cache.RefreshExpiredEntries` | pkg/schema/cache.go:239-258 | collecting and deleting in any order removes exactly the expired entries |
| `SchemaCache.BoundedStaleness` | pkg/schema/cache.go:113-258 | over every run, every answer is the direct query's answer at a call for the same key within the time to live then in force and not before the key's last invalidation |
| `SchemaCache.TTLInForce` | pkg/schema/cache.go:221-225 | the time to live in force is the one set last |
| `SchemaCache.RefreshIsRemembered` | pkg/schema/cache.go:113-137 | within its time to live an answer is repeated, whatever the database has become |
| `SchemaCache.SweepRemovesExpired` | pkg/schema/cache.go:239-258 | a sweep removes the expired entries and no others |
| `SchemaCache.QueryFoldsTableCase` | pkg/schema/cache.go:140-178 | the direct query folds the case of the table's name and not of the schema's |
| `SchemaCache.BoundedStalenessOfTable` | pkg/schema/cache.go:113-258 | when no two schemas asked for can share a key, that call was for the very same table |
| `SchemaCache.KeyInjective` | pkg/schema/cache.go:473-475 | with dot-free schema names a key names one schema and one table |
| `SchemaCache.KeysCollideIff` | pkg/schema/cache.go:473-475 | two schemas can share a key if and only if they differ and one, with a dot behind it, opens the other |
| `SchemaCache.DotFreeKeysApart` | pkg/schema/cache.go:473-475 | dot-free schema names keep keys apart |
| `SchemaCache.DottedKeysCollide` | pkg/schema/cache.go:473-475 | with a dot two tables share a key |
| `SchemaCache.InvalidationReachesIff` | pkg/schema/cache.go:184-187 | an invalidation reaches an entry if and only if the table's name is spelled the same |
| `SchemaCache.OtherSpellingStaysStale` | pkg/schema/cache.go:150-187 | a run in which DDL under another spelling leaves a stale entry |
| `SchemaCache.AnswerReflectsDatabaseIff` | pkg/schema/cache.go:113-178 | an answer is the database's own at the vouching call if and only if that call's query got through or there was nothing to find |
| `SchemaCache.MissingConnectionIsRemembered` | pkg/schema/cache.go:113-147 | a run in which an answer given without a connection is served to a caller that has one |

## Left out

- Rows.EncodeRow: values whose Go type the column's encoder would convert between float widths or format with %v are outside the precondition; the streamer never produces them (`Streamer.ConvertedEncodable`).
- Rows.EncodeRowData: the same precondition; a row whose length differs from the column count is excluded too.
- Events.EncodeRowsEvent: requires present bitmaps of the size the column count calls for, as the server always builds them (`Server.ConvertShaped`).
- Events.EncodeTableMap: the same for the nullability bitmap.
- Values.ValueRoundTrip: covers the column types the streamer produces except BIT, whose bytes are modelled but carry nothing of a text value; YEAR, INT24, TIME2, TIMESTAMP, TIMESTAMP2, ENUM, SET and GEOMETRY are not modelled, and JSON is framing only.
- Datetime2.EncodeDatetime2: takes the six fields of a valid time; parsing the text form with time.Parse is left out.
- Scanning.ScanOfPrint: blanks are space and tab.
- Server.EncodeBinlogEvent: the shortcut for raw data is left out; GTID payloads are the four zero bytes of the default branch, so GTID properties are about events, not bytes.
- Server.GtidsConsecutive: the transaction counter does not wrap.
- Cdc.CdcFidelity: TRUNCATE, DDL and schema changes during a run are not part of the source model, and an event stays below 4 GiB. A table map needs at least one column, and no two known tables have the same name. Money, bit and binary columns hold no replicable value. A float is taken to be scanned back to the bits the source printed. An array stands for its own text in brackets, so that nested arrays and unquoted elements are no valid JSON is not considered.
- SourceValues.ValueConverts: the same.
- ResumePosition.ResumeIsSafe: events in the channel are taken as handed over; losing the channel's contents at a restart is not modelled, nor are messages that fail to parse.
- Broadcast.ClientGetsContiguousSlice: shutting the whole server down is not a step.
- BinlogWriter.Perform: runs consist of records that fit the buffer and successful I/O; the JSON format, the asynchronous channel, filters, file cleanup and file-number wrap-around are left out.
- Words.ReplaceWord: the word is non-empty and alphanumeric, as at every call; text is ASCII.
- Placeholders.CountParams: does not model overflow of Go's int.
- Parens.ClauseKeepsShape: covers the two removals, not the JOIN rewriting before them; blanks are ASCII.
- Sessions.SessionAgreement: statements that themselves change the search path or the transaction, such as a ROLLBACK to a savepoint, are not modelled, nor is the binary protocol.
- SchemaCache.BoundedStaleness: each lookup is atomic and entries come from the auto-increment path alone.
- The rewriting driven by the TiDB parser, the other text passes of the generator, SHOW emulation, type and error tables, prepared-statement ids, connection pools, configuration, logging, metrics, HTTP and backup.
