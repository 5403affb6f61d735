# Migration routing and assortative partner selection

This project is a Dafny model of two parts of the EMOD epidemiological simulator.

**Migration** (`Eradication/Migration.cpp`) decides where an individual travels
next, and when. Each node owns a migration strategy:

- *Null* never moves anyone.
- *FixedRate* holds one rate per reachable node. It builds a normalised
  cumulative distribution over those rates and picks a destination with one
  uniform draw. The waiting time is drawn from an exponential distribution
  with the total rate.
- *AgeAndGender* holds, for each gender and destination, a table of rates
  sampled at ages. Before each pick it interpolates the rates at the
  traveller's age, either linearly or piecewise constant.

Rates come from migration files. Each file has a metadata part and a binary
part:

- The metadata declares the number of destinations per node, the migration
  type, the gender layout, the ages, the interpolation type and a hexadecimal
  table of node offsets.
- The binary part holds, for each gender chunk, age and node, a block of
  (destination id, rate) slots.

A file factory merges the data of every enabled file into one rate list per
gender. It chooses FixedRate when every file is single-gender and single-age
at the maximum human age, and AgeAndGender otherwise. When no file is
configured, a default factory builds local migration to the eight Moore
neighbours on a square torus.

**Assortivity** (`Eradication/Assortivity.cpp`) picks a partner for
individual A from a list of candidates, weighted by a square matrix over an
axis of trait values. The configuration is checked:

- For the STI infection group, the axes must be TRUE and FALSE in either
  order; the matrix is then sorted to FALSE, TRUE.
- For the individual-property group, the axes must match the property's
  values.
- The matrix must be square, with no all-zero row or column.

The group becomes active only after its start year. Selection then works as
follows:

- Every candidate with a positive weight is put into a bounded scratch pool
  of at most 50000 entries.
- The first pooled candidate whose running weight exceeds `draw * total` is
  chosen.
- For the individual-property group, each individual caches its axis index
  per relationship type. A cached index is never re-read.

State the source changes in place is modelled by Dafny classes, with
`modifies` and `reads` frames:

- the two rate-table strategies;
- the migration file reader;
- the individual's index cache;
- the scratch pool, an `array`;
- the assortivity object.

Each method is proved against a specification function on values
(`Decide`, `ReadDataSpec`, `MergeSlots`, `PoolOf`/`Choose`, `IPChoice`).
The properties the source relies on are lemmas about those functions:

- the cumulative distribution is a distribution;
- the pick lands in bounds;
- the hex offsets round-trip;
- the pool is the truncated list of positive weights;
- a positive-weight candidate is always found;
- the torus neighbours wrap around.

## Model

| member | source | states |
|---|---|---|
| Text.ToUpperIdempotent | Eradication/Assortivity.cpp:161-178 | Upper-casing a label a second time changes nothing; CheckAxesForTrueFalse uses this to show the axes it leaves are already in upper case. |
| Text.ToLowerIgnoresCase | Eradication/Migration.cpp:566-579 | Lower-casing after upper-casing gives the plain lower-case form, so the id-reference comparison ignores case. |
| MigrationRates.NewRateData | Eradication/Migration.cpp:40-46 | A new destination entry is well formed and has no samples yet. |
| MigrationRates.InsertSample | Eradication/Migration.cpp:69-72 | Inserting an age sample keeps the ages strictly sorted; an age already present leaves the table unchanged; otherwise exactly the new sample is added and nothing is lost. |
| MigrationRates.AddRate | Eradication/Migration.cpp:69-72 | Adding a rate keeps the entry's destination, type and interpolation. A new age adds one sample; an existing age is ignored; every old sample survives. |
| MigrationRates.Linear | Eradication/Migration.cpp:74-104 | Within the sampled ages, the value lies on the straight line through the two samples whose ages bracket the age. |
| MigrationRates.Step | Eradication/Migration.cpp:74-104 | The value is the rate of the last sample at or below the age: the next sample, if any, lies above the age. |
| MigrationRates.GetRate | Eradication/Migration.cpp:74-104 | Ages at or below the first sample give its rate and ages at or above the last give the last rate. In between, the rate comes from the two samples that bracket the age: on the line through them when linear, the lower one's rate when piecewise constant. |
| MigrationRates.GetRateClamps | Eradication/Migration.cpp:74-104 | Below the first sampled age the rate is the first sample's; at or above the last it is the last sample's. |
| MigrationRates.OneSampleIsConstant | Eradication/Migration.cpp:74-104 | A table with a single sample gives that rate at every age. |
| MigrationRates.GetRateAtSample | Eradication/Migration.cpp:74-104 | At every sampled age, both interpolation kinds return exactly the sampled rate. |
| MigrationRates.LinearBounded | Eradication/Migration.cpp:74-104 | Linear interpolation never leaves the range between the smallest and largest sampled rate. |
| MigrationRates.StepIsSampled | Eradication/Migration.cpp:74-104 | Piecewise-constant lookup always returns one of the sampled rates. |
| MigrationRates.GetRateBounded | Eradication/Migration.cpp:74-104 | The rate at any age lies between the minimum and maximum sample; piecewise-constant data returns a sampled value. |
| MigrationRates.GetRateExample | Eradication/Migration.cpp:74-104 | Samples (10, 0.1) and (50, 0.5) give 0.1 at age 5, 0.5 at age 100 and 0.3 at age 30. |
| MigrationCdf.Sum | Eradication/Migration.cpp:263-268 | The total of non-negative rates is non-negative. |
| MigrationCdf.NormalizedCdf | Eradication/Migration.cpp:261-285 | There is one cumulative entry per rate; NormalizedCdfIsDistribution states that it is a distribution. |
| MigrationCdf.NormalizeRates | Eradication/Migration.cpp:261-285 | The loop's running sums equal the total rate and the normalised cumulative distribution of the rates. |
| MigrationCdf.NormalizedCdfIsDistribution | Eradication/Migration.cpp:261-285 | For non-negative rates with a positive total, the result is non-decreasing, within [0, 1], and ends at exactly 1. Each step equals the destination's share of the total. |
| MigrationCdf.NormalizedCdfUnchanged | Eradication/Migration.cpp:274-284 | With no rates or a non-positive total, the list keeps the raw rates: nothing is accumulated or divided. |
| MigrationCdf.NormalizeExample | Eradication/Migration.cpp:261-285 | Rates 1, 1, 2 give total 4 and distribution 0.25, 0.5, 1. |
| MigrationCdf.FirstNotBelow | Eradication/Migration.cpp:247-258 | The scan index is the first entry not below the draw; all earlier entries are below it. |
| MigrationCdf.PickIndex | Eradication/Migration.cpp:247-258 | When the draw does not exceed the last entry, the scanning loop returns an index in range whose entry is at least the draw, with every earlier entry below it. |
| MigrationCdf.PickedBucket | Eradication/Migration.cpp:247-258 | On a non-decreasing distribution, the chosen bucket's lower edge is below the draw, so a zero-width bucket after the first is never chosen. |
| MigrationInfo.GenderIndex | Eradication/Migration.cpp:346-352 | Male maps to index 0 and female to index 1. |
| MigrationInfo.Decide | Eradication/Migration.cpp:218-259 | The decision is either no migration or a move to one of the listed destinations, with that destination's own type and the waiting time for the total rate. |
| MigrationInfo.DecideNoMigration | Eradication/Migration.cpp:234-245 | With no destinations or a non-positive total rate, the result is no migration. |
| MigrationInfo.DecideChoosesDestination | Eradication/Migration.cpp:218-259 | With a positive total, the step goes to the first destination whose cumulative share reaches the draw, with that destination's type. The time is drawn with the total rate. For non-negative rates the chosen destination has a positive rate, except for a zero draw landing on the first. |
| MigrationInfo.PickAsWritten | Eradication/Migration.cpp:239-258 | The scan as written stays exactly when there is no destination or the total is exactly 0. A chosen index is in range with its entry at least the draw. Reading past the end needs a negative total or a draw above 1. |
| MigrationInfo.PickAsWrittenReadsPastEnd | Eradication/Migration.cpp:239-258 | As written, a total of -1 passes the guard and the scan runs past the end of the distribution. |
| MigrationInfo.PickAsWrittenChoosesOnNegativeTotal | Eradication/Migration.cpp:239-258 | As written, rates -1 and 0.5 (total -0.5) with a draw of 0.3 pass the guard and choose destination 1, where the corrected decision moves nobody. |
| MigrationInfo.CorrectedGuardInBounds | Eradication/Migration.cpp:239-258 | With the guard requiring a positive total, the pick is always in range. For non-negative rates the scan as written never reads past the end, and it stays exactly when the total is not positive and otherwise chooses the first entry not below the draw. |
| MigrationInfo.DecideIsScanAsWritten | Eradication/Migration.cpp:218-259 | For non-negative rates the decision is the scan as written: no migration where it stays, the chosen destination, its type and the time for the total rate where it chooses, and it never reads past the end. |
| MigrationInfo.MigrationInfoFixedRate.constructor | Eradication/Migration.cpp:163-170 | A new fixed-rate strategy has empty lists and a zero total. |
| MigrationInfo.MigrationInfoFixedRate.Initialize | Eradication/Migration.cpp:181-198 | Without data, the lists stay empty. Otherwise nodes, types and rates come from the first gender's list, each rate being the single sample's. |
| MigrationInfo.MigrationInfoFixedRate.PickMigrationStep | Eradication/Migration.cpp:218-259 | The step is the one the decision function gives for the stored rates, nodes and types. |
| MigrationInfo.MigrationInfoAgeAndGender.constructor | Eradication/Migration.cpp:315-321 | A new age-and-gender strategy has empty lists and a zero total. |
| MigrationInfo.MigrationInfoAgeAndGender.Initialize | Eradication/Migration.cpp:327-344 | The strategy keeps both genders' rate data and is consistent. |
| MigrationInfo.MigrationInfoAgeAndGender.CalculateRates | Eradication/Migration.cpp:346-360 | The raw rates become the gender's entries evaluated at the age; the strategy stays consistent. |
| MigrationInfo.MigrationInfoAgeAndGender.GetReachableNodes | Eradication/Migration.cpp:362-372 | The gender's reachable nodes are the destinations of that gender's data. |
| MigrationInfo.MigrationInfoAgeAndGender.GetMigrationTypes | Eradication/Migration.cpp:374-384 | The gender's migration types are those of that gender's data. |
| MigrationInfo.MigrationInfoAgeAndGender.PickMigrationStep | Eradication/Migration.cpp:218-259 | Rates are first recomputed for the traveller's gender and age in years; a missing traveller counts as male, age 0. The step is the decision over that gender's nodes and types. |
| MigrationInfo.PickMigrationStep | Eradication/Migration.cpp:125-134 | Null strategies return the nil node, no migration and time -1. The other two strategies give their own class's step. |
| NodeOffsets.ScanHex | Eradication/Migration.cpp:708-709 | The "%x" conversion read as strtoul reads base 16: white space, then an optional sign and 0x mark, then hex digits, with a minus sign negating. A field that starts with anything else reads as 0, and a field of hex digits alone reads as its full value. |
| NodeOffsets.DigitsOnly | Eradication/Migration.cpp:708-709 | A field of hex digits alone has no white space, sign or 0x mark, and every digit is read. |
| NodeOffsets.ScanHexSkipsSpace | Eradication/Migration.cpp:708-709 | White space before the number does not change what is read. |
| NodeOffsets.ScanHexSign | Eradication/Migration.cpp:708-709 | Before the digits, a plus sign changes nothing and a minus sign negates the number. |
| NodeOffsets.ScanHexMark | Eradication/Migration.cpp:708-709 | A 0x or 0X mark before the digits is passed over. |
| NodeOffsets.FieldValue | Eradication/Migration.cpp:705-709 | The value stored in the 32-bit id or offset is the number read, or for a negative number that number plus 2^32, and is always below 2^32. |
| NodeOffsets.BlankFieldExample | Eradication/Migration.cpp:708-709 | " 000001f" stores 31. |
| NodeOffsets.MarkedFieldExample | Eradication/Migration.cpp:708-709 | "0x00001f" stores 31. |
| NodeOffsets.PlusFieldExample | Eradication/Migration.cpp:708-709 | "+000001f" stores 31. |
| NodeOffsets.MinusFieldExample | Eradication/Migration.cpp:708-709 | "-0000001" wraps and stores 2^32 - 1. |
| NodeOffsets.DecodeRecord | Eradication/Migration.cpp:705-711 | The node id and the offset of a record are the values stored from its two 8-character fields, and both fit in an unsigned 32-bit integer. |
| NodeOffsets.DecodeOffsets | Eradication/Migration.cpp:703-712 | Every node id and offset in the decoded map fits in an unsigned 32-bit integer. |
| NodeOffsets.HexPrefix | Eradication/Migration.cpp:708-709 | The digits read after the white space, sign and 0x mark are the longest run of hex digits there. |
| NodeOffsets.FieldFitsInUint32 | Eradication/Migration.cpp:705-709 | An eight-character field reads as a number of magnitude below 2^32, so the wrap into 32 bits loses nothing but the sign. |
| NodeOffsets.ToHexRoundTrip | Eradication/Migration.cpp:708-709 | Scanning the hex encoding of a value that fits in n digits gives the value back. |
| NodeOffsets.FieldRoundTrip | Eradication/Migration.cpp:708-709 | Every 32-bit value survives being written as eight hex digits and scanned back, and is the value stored. |
| NodeOffsets.RecordRoundTrip | Eradication/Migration.cpp:703-712 | A 16-character record at a record boundary decodes to its node id and offset, whatever surrounds it. |
| NodeOffsets.OffsetsRoundTrip | Eradication/Migration.cpp:703-712 | Decoding an encoded table of (node id, offset) pairs gives the map those pairs build, later pairs overriding earlier ones. |
| NodeOffsets.DecodeIsPairsToMap | Eradication/Migration.cpp:703-712 | Decoding the offsets builds the same map as inserting the decoded records in order. |
| NodeOffsets.PairsKeys | Eradication/Migration.cpp:711 | A node is in the map exactly when some record names it. |
| NodeOffsets.PairsLastWins | Eradication/Migration.cpp:711 | A node's offset comes from the last record naming it. |
| NodeOffsets.DecodeOffsetsLastWins | Eradication/Migration.cpp:703-712 | The decoded map has a key exactly when some record names it, and the value comes from the last such record. |
| MigrationFile.GenderDataChunks | Eradication/Migration.cpp:784-796 | The data has one chunk when it is the same for both genders, and two when each gender has its own. |
| MigrationFile.ExpectedSize | Eradication/Migration.cpp:733-737 | The file holds one gender section when both genders share data and two when each has its own. |
| MigrationFile.MakeLayout | Eradication/Migration.cpp:733-737 | The layout keeps the destinations, ages and offsets; an age section holds one block per node and the gender section one age section per age; absent enumerations default to the same data for both genders and linear interpolation. |
| MigrationFile.HeaderError | Eradication/Migration.cpp:566-632 | The header passes exactly when the id references agree ignoring case, a stated destination count is in 1..100, the migration type is recognised and the expected one when stated, and the gender type is recognised; a mismatched id reference is the error reported first. |
| MigrationFile.ParsedAges | Eradication/Migration.cpp:637-666 | Absent ages default to the single age 125. An array is accepted exactly when every age passes, and accepted ages are all in range and non-decreasing; only a non-array key gives the not-an-array error. |
| MigrationFile.LayoutAfterAges | Eradication/Migration.cpp:671-760 | A layout is produced only with a recognised interpolation type and a node count matching the offsets string; it keeps the ages and destinations, every offset lies inside the expected file, and the only errors are the three checks. |
| MigrationFile.ParseMetadata | Eradication/Migration.cpp:554-760 | A header error is the reported error. An accepted layout has passed the header checks, holds the validated ages, and has every offset inside the expected file. |
| MigrationFile.FirstBadAge | Eradication/Migration.cpp:637-666 | Reports no age exactly when every age is in [0, 125] and not below its predecessor; otherwise the first age that fails. |
| MigrationFile.AgesSorted | Eradication/Migration.cpp:637-666 | Ages that pass the check are sorted (non-decreasing). |
| MigrationFile.ParseMetadataAccepted | Eradication/Migration.cpp:554-760 | Accepted metadata has the following properties:<br>• the id reference matches, ignoring case;<br>• there are 1 to 100 destinations, defaulted when absent;<br>• the type matches;<br>• the ages are the file's own, or [125] when absent, and are bounded and sorted;<br>• the node count equals the offset-string length over 16;<br>• the offsets are the decoded table;<br>• the expected size is chunks × ages × nodes × destinations × 12 bytes;<br>• every offset lies inside that size. |
| MigrationFile.ParseMetadataComplete | Eradication/Migration.cpp:554-760 | Metadata meeting every one of those conditions is accepted, the converse of the lemma above. |
| MigrationFile.ParseMetadataIgnoresCase | Eradication/Migration.cpp:566-579 | Changing the case of the id references does not change the parse. |
| MigrationFile.LayoutSize | Eradication/Migration.cpp:733-737 | The expected binary size is the product of gender chunks, ages, nodes, destinations and the 12-byte slot. |
| MigrationFile.EncodedOffsetsDecode | Eradication/Migration.cpp:690-712 | A well-encoded offset string passes the node-count check and decodes to the map of its pairs. |
| MigrationFile.OpenCheck | Eradication/Migration.cpp:762-782 | Opening succeeds exactly when the file exists with the expected size; a missing file is reported as not found and a wrong size as such. |
| MigrationFile.Load | Eradication/Migration.cpp:418-433 | An empty file name is the first error. A loaded reader holds the parsed layout and the given file, whose size is the one the layout expects. |
| MigrationFile.LoadedFileMatchesLayout | Eradication/Migration.cpp:418-433 | A loaded file has a non-empty name, its size is the expected one, and every node offset lies inside it. |
| MigrationFile.ReadBlock | Eradication/Migration.cpp:480-491 | A successful read returns the block stored at that position, holding exactly the requested number of slots and ending inside the file; no read of at least one slot starts at or after the end of the file. |
| MigrationFile.ReadPosition | Eradication/Migration.cpp:478 | The position is at or after the start of the (gender, age) section, and lies before that section's end exactly when the node's offset is below one age section. |
| MigrationFile.MergeSlots | Eradication/Migration.cpp:499-522 | Merging a block keeps every entry readable and never shrinks the list; its only error is inconsistent destinations. |
| MigrationFile.MergeAges | Eradication/Migration.cpp:471-523 | Merging every age block keeps every entry readable and never shrinks the list. |
| MigrationFile.MergeGenders | Eradication/Migration.cpp:459-525 | Merging both genders keeps two readable lists. |
| MigrationFile.ReadDataSpec | Eradication/Migration.cpp:435-528 | Reading a node keeps the rate data empty or two lists. |
| MigrationFile.MergeSlotsIsMerged | Eradication/Migration.cpp:499-522 | Merging a block fails exactly when a used slot disagrees with the destination or type already at its position. Otherwise it gives the independently defined merge: existing entries gain a sample, new ones are appended. |
| MigrationFile.MergedDestinations | Eradication/Migration.cpp:507-520 | After a consistent merge, the k-th used slot's destination and type sit at the k-th position from the block's start. |
| MigrationFile.FirstBlockAppends | Eradication/Migration.cpp:507-511 | The first block read for a node appends one new entry per used slot, each holding the single sample (age, rate × modifier). |
| MigrationFile.NewEntriesSingleSample | Eradication/Migration.cpp:507-511 | Each entry created for a used slot holds exactly one sample: the block's age with the slot's rate × modifier. |
| MigrationFile.SharedChunkFillsBothGenders | Eradication/Migration.cpp:461-468 | With one gender chunk, both genders receive identical rate data. |
| MigrationFile.ReadPositionInside | Eradication/Migration.cpp:478 | When the node's offset is below the size of one age section, the read position of a gender, age and node lies inside that age's section and inside the expected file. The source checks offsets only against the whole file size, so it does not guarantee this hypothesis (see AcceptedOffsetLeavesSection). |
| MigrationFile.OffsetCheckAdmitsOtherSection | Eradication/Migration.cpp:733-757 | Metadata with one node at offset 12, one destination and ages 10 and 125 is accepted: its sections are 12 bytes and the file 24, and the offset is checked only against the 24. |
| MigrationFile.AcceptedOffsetLeavesSection | Eradication/Migration.cpp:478-491 | In that accepted layout the block for age 10 is read from age 125's section, and the block for age 125 starts at the end of the file, where no read succeeds. |
| MigrationFile.FixedReadKeepsSingleSamples | Eradication/Migration.cpp:453-456 | A read reported as fixed-rate leaves every entry with exactly one sample. |
| MigrationFile.ReadDataNeverShrinks | Eradication/Migration.cpp:435-528 | Reading never removes a gender list or an entry. |
| MigrationFile.MigrationInfoFile.constructor | Eradication/Migration.cpp:390-408 | A new file reader holds its configuration and nothing loaded: default destinations, the same data for both genders, linear interpolation, zero sizes, a closed stream. |
| MigrationFile.MigrationInfoFile.ParseMetadataForFile | Eradication/Migration.cpp:554-760 | The reader's layout becomes the parsed layout and the expected size is returned; the error is the first failing check. |
| MigrationFile.MigrationInfoFile.ReadHeader | Eradication/Migration.cpp:566-632 | The header checks report the first failing field; on success the destination count and gender layout are set. |
| MigrationFile.MigrationInfoFile.ReadAges | Eradication/Migration.cpp:637-666 | The ages loop reports the first bad age, and stores the ages when all pass. |
| MigrationFile.MigrationInfoFile.StoreLayout | Eradication/Migration.cpp:703-737 | The offsets read are the decoded ones, and the section sizes stored make the reader's layout the one the metadata gives. |
| MigrationFile.MigrationInfoFile.ReadLayout | Eradication/Migration.cpp:671-760 | After the ages, the remaining checks give the layout's expected size or its first error. |
| MigrationFile.MigrationInfoFile.ReadOffsets | Eradication/Migration.cpp:703-712 | The loop stores exactly the decoded offset table. |
| MigrationFile.MigrationInfoFile.OffsetsFit | Eradication/Migration.cpp:742-757 | The loop accepts exactly when every offset is below the expected size. |
| MigrationFile.MigrationInfoFile.OpenMigrationFile | Eradication/Migration.cpp:762-782 | A missing file or one of the wrong size is an error; otherwise the stream is that file. |
| MigrationFile.MigrationInfoFile.Initialize | Eradication/Migration.cpp:418-433 | A disabled reader does nothing. An enabled one gives the load's first error, or holds the parsed layout and the opened file. |
| MigrationFile.MigrationInfoFile.MergeBlock | Eradication/Migration.cpp:499-522 | The slot loop computes exactly the block-merge function. |
| MigrationFile.MigrationInfoFile.MergeNodeAges | Eradication/Migration.cpp:471-523 | The age loop computes exactly the age-merge function for the reader's layout and file. |
| MigrationFile.MigrationInfoFile.ReadData | Eradication/Migration.cpp:435-528 | Reading a node's data equals the read specification: unlisted nodes leave the data unchanged and are fixed. |
| MigrationFactory.ReadAll | Eradication/Migration.cpp:898-916 | Folding over the files keeps the rate data empty or two lists. |
| MigrationFactory.GetRateData | Eradication/Migration.cpp:898-916 | The loop over the files equals the fold that reads each file in turn, starting fixed and with no data. |
| MigrationFactory.NoDataIffNoFileListsNode | Eradication/Migration.cpp:898-916 | The merged data is empty exactly when no file lists the node. |
| MigrationFactory.FixedIffAllListingFixed | Eradication/Migration.cpp:898-916 | The data is fixed-rate exactly when every file listing the node is single-gender, single-age at 125 years. |
| MigrationFactory.FixedDataSingleSampled | Eradication/Migration.cpp:898-916 | Fixed-rate data has exactly one sample per entry. |
| MigrationFactory.CreateMigrationInfo | Eradication/Migration.cpp:859-896 | A read error is passed on. Otherwise:<br>• Null exactly when no file lists the node;<br>• FixedRate exactly when there is data and all listing files are fixed, built from the first gender's list;<br>• AgeAndGender otherwise, holding the merged data. |
| MigrationFactory.NewFixedRate | Eradication/Migration.cpp:877-882 | A new fixed-rate strategy is built from the first gender's list. |
| MigrationFactory.NewAgeAndGender | Eradication/Migration.cpp:883-888 | A new age-and-gender strategy holds the merged data. |
| MigrationFactory.CorrectedOffsets | Eradication/Migration.cpp:976-1010 | Each of the eight offsets is the row and column step of its direction plus the wrap correction of the edges the node is on, the left edge taking precedence over the right and the top over the bottom. |
| MigrationFactory.TorusOffsets | Eradication/Migration.cpp:976-1010 | There are eight offsets, and away from every edge they are the plain Moore offsets. |
| MigrationFactory.TorusNeighbours | Eradication/Migration.cpp:1017-1020 | There are eight neighbour ids, each the node id moved by its offset; TorusNeighboursWrap states that they are the wrapped grid cells. |
| MigrationFactory.TorusEntry | Eradication/Migration.cpp:1017-1028 | A torus destination is a local-migration entry with one sample at 125 years, rate 1/8/10 × modifier. |
| MigrationFactory.TorusRateData | Eradication/Migration.cpp:971-1031 | On success there is one list of the eight neighbours, each on the torus with the basic rate. On failure, the first neighbour that falls off the torus is reported. |
| MigrationFactory.EdgeTests | Eradication/Migration.cpp:986-1010 | The edge tests on the node id detect exactly the left, right, top and bottom edges of the grid. |
| MigrationFactory.TorusNeighboursWrap | Eradication/Migration.cpp:976-1010 | For a side of 2 or more, the eight offsets give the Moore neighbours with wrap-around, and all lie on the torus. |
| MigrationFactory.TorusOfOneFails | Eradication/Migration.cpp:1019-1020 | For a 1×1 torus, the first neighbour is node 0, which the range check rejects. |
| MigrationFactory.CreateMigrationInfoDefault | Eradication/Migration.cpp:951-969 | It fails exactly when a neighbour is off the torus. Otherwise it is FixedRate with the eight neighbours, local migration and the basic rate when local migration is enabled, and Null when not. |
| PartnerPool.Positive | Eradication/Assortivity.cpp:396 | The positively weighted candidates are kept, and only those. |
| PartnerPool.PoolOf | Eradication/Assortivity.cpp:390-403 | The pool built by offering the candidates in order never exceeds its capacity of 50000 entries; PoolIsTruncatedPositive and PoolBounded state which candidates it holds. |
| PartnerPool.PoolIsTruncatedPositive | Eradication/Assortivity.cpp:390-403 | The pool is exactly the positively weighted candidates in list order, cut off after 50000. |
| PartnerPool.PoolBounded | Eradication/Assortivity.cpp:390-403 | The pool never exceeds 50000 entries, and each entry is a positively weighted candidate. |
| PartnerPool.ScoreSumPositive | Eradication/Assortivity.cpp:401 | The total of a non-empty pool is positive; that of an empty pool is zero. |
| PartnerPool.FirstAbove | Eradication/Assortivity.cpp:409-420 | The choice is the first entry whose running weight exceeds the threshold; no such entry means nobody is chosen. |
| PartnerPool.Choose | Eradication/Assortivity.cpp:409-420 | An empty pool chooses nobody. A chosen index is the first whose running weight exceeds draw × total; nobody is chosen only when no running weight does. |
| PartnerPool.EmptyPoolChoosesNobody | Eradication/Assortivity.cpp:411-420 | An empty pool returns nobody. |
| PartnerPool.NonEmptyPoolChooses | Eradication/Assortivity.cpp:409-420 | A non-empty pool of positive weights always chooses someone for a draw in [0, 1), and the chosen one has a positive weight. |
| PartnerPool.ChosenHasPositiveWeight | Eradication/Assortivity.cpp:390-420 | Whoever is chosen is one of the candidates and has a positive weight. |
| PartnerPool.ChooseExample | Eradication/Assortivity.cpp:409-420 | With weights 1 and 3, a draw of 0.2 picks the first candidate and 0.5 the second. |
| AssortivityConfig.LineVerdict | Eradication/Assortivity.cpp:226-252 | The row/column scan passes exactly when every remaining line is fine. Otherwise it reports the first line: an all-zero row before an all-zero column of the same index. |
| AssortivityConfig.MatrixVerdict | Eradication/Assortivity.cpp:214-253 | The matrix passes exactly when it is square and every row and column has a positive entry. A non-square matrix is reported as such; otherwise the first all-zero row or column is reported. |
| AssortivityConfig.UpperAll | Eradication/Assortivity.cpp:163-166 | Every axis label is upper-cased in place, and the list keeps its length. |
| AssortivityConfig.TrueFalse | Eradication/Assortivity.cpp:167-169 | Axes that pass are two different labels. |
| AssortivityConfig.TrueFalseIsPair | Eradication/Assortivity.cpp:161-178 | The check passes exactly for the axes TRUE, FALSE or FALSE, TRUE. |
| AssortivityConfig.Flip | Eradication/Assortivity.cpp:255-270 | Flipping a 2×2 matrix swaps both its rows and its columns. |
| AssortivityConfig.SortFalseTrue | Eradication/Assortivity.cpp:255-270 | Sorting gives the axes FALSE, TRUE and a 2×2 matrix, unchanged when already in that order. |
| AssortivityConfig.SortKeepsWeights | Eradication/Assortivity.cpp:255-270 | After sorting, the weight for any pair of TRUE/FALSE labels is the weight they had before. |
| AssortivityConfig.SortExample | Eradication/Assortivity.cpp:255-270 | Sorting the TRUE, FALSE matrix [[a, b], [c, d]] gives [[d, c], [b, a]]. |
| AssortivityConfig.FlipKeepsMatrixOk | Eradication/Assortivity.cpp:214-270 | Sorting cannot change whether the matrix passes its check. |
| AssortivityConfig.AxisIndex | Eradication/Assortivity.cpp:488-499 | The index is the first axis equal to the value; it is an error exactly when the value is not an axis. |
| AssortivityConfig.AxesMatchAsWritten | Eradication/Assortivity.cpp:195-200 | For axes without repeats, the test as written guarantees that every property value has an axis. |
| AssortivityConfig.DuplicateAxisPassesAsWritten | Eradication/Assortivity.cpp:180-212 | As written, the axes A, A pass against the property values {A, B}, yet B has no axis index. |
| AssortivityConfig.DistinctSetSize | Eradication/Assortivity.cpp:195-200 | Distinct axes form a set of the same size. |
| AssortivityConfig.CorrectedAxesResolveEveryValue | Eradication/Assortivity.cpp:180-212 | Under the corrected check, every property value has an axis index. |
| AssortivityConfig.AxesTestsAgreeOnDistinct | Eradication/Assortivity.cpp:180-212 | The corrected check implies the written one, and the two agree on distinct axes. |
| AssortivityConfig.SwapCorners | Eradication/Assortivity.cpp:258-268 | The in-place swap exchanges the four corner entries and leaves every other entry alone. |
| AssortivityConfig.SwapCornersIsFlip | Eradication/Assortivity.cpp:255-270 | On a 2×2 matrix, the in-place swap is the flip. |
| AssortivityConfig.StiChecksAsWritten | Eradication/Assortivity.cpp:112-156 | As written, axes that are not TRUE/FALSE are rejected first; the reordering indexes out of range exactly when the axes are TRUE first and the matrix lacks its 2×2 corners; an accepted configuration has axes FALSE, TRUE and a valid matrix. |
| AssortivityConfig.StiAsWrittenReadsOutOfRange | Eradication/Assortivity.cpp:123-124 | As written, axes TRUE, FALSE with a 1×1 matrix are sorted before the matrix check and index past the matrix. |
| AssortivityConfig.StiChecks | Eradication/Assortivity.cpp:112-156 | The corrected checks never index out of range. They accept exactly TRUE/FALSE axes (ignoring case) with a valid 2×2 matrix, and then give the sorted configuration. Axes that are not TRUE/FALSE, and a matrix that is not 2×2, are reported as such; an all-zero line is reported at its index in the sorted matrix, as CheckMatrix sees it. |
| AssortivityConfig.CorrectedStiChecksAgree | Eradication/Assortivity.cpp:112-156 | Wherever the written order stays in range, it gives exactly the outcome of the corrected order, errors included. |
| AssortivityConfig.StiReportsSortedRow | Eradication/Assortivity.cpp:123-124 | Axes TRUE, FALSE with the matrix [[0, 0], [1, 1]] are reported, in both orders of checking, as an all-zero row 1: the empty row lands at index 1 once sorted. |
| Assortivity.Weights | Eradication/Assortivity.cpp:394-395 | Candidate k is weighted by A's row at the candidate's column, one weight per candidate. |
| Assortivity.Pick | Eradication/Assortivity.cpp:385-421 | A chosen candidate is in the list and has a positive weight in A's row. |
| Assortivity.PickNoneWithoutWeight | Eradication/Assortivity.cpp:385-421 | When no candidate has a positive weight, nobody is chosen. |
| Assortivity.PickSomeWithWeight | Eradication/Assortivity.cpp:385-421 | When some candidate has a positive weight and the draw is in [0, 1), someone is chosen. |
| Assortivity.GetIndexSTI | Eradication/Assortivity.cpp:280-283 | The STI index is 1 exactly for an infected individual. |
| Assortivity.GetIndexStiCoInfection | Eradication/Assortivity.cpp:285-288 | The co-infection index is 1 exactly for a co-infected individual. |
| Assortivity.BooleanIndexIsAxis | Eradication/Assortivity.cpp:280-288 | The boolean indices are the positions of the trait's label on the sorted FALSE, TRUE axes. |
| Assortivity.Resolve | Eradication/Assortivity.cpp:439-458 | The index is in range. An uncached value is looked up on the axes, and only an uncached value missing from the axes is an error. |
| Assortivity.RefreshSettles | Eradication/Assortivity.cpp:439-458 | Looking an index up caches it, so a second lookup gives the same answer and changes nothing; other relationship types are untouched. |
| Assortivity.ResolveAll | Eradication/Assortivity.cpp:451-458 | All candidates resolve, giving every column in range, exactly when each one does; otherwise the error is one of theirs. |
| Assortivity.IPIndices | Eradication/Assortivity.cpp:439-458 | The indices resolve exactly when A and every candidate do. |
| Assortivity.IPChoice | Eradication/Assortivity.cpp:424-486 | It is an error exactly when some index fails to resolve. A chosen candidate is in the list with a positive weight in A's row. |
| Assortivity.CachedAnchorNotReread | Eradication/Assortivity.cpp:439-444 | Once A's index is cached, A's property value no longer affects the choice. |
| Assortivity.AllResolved | Eradication/Assortivity.cpp:451-458 | When every candidate resolves to its column, the whole list resolves to those columns. |
| Assortivity.FirstFailureReported | Eradication/Assortivity.cpp:451-458 | The error reported is that of the first candidate that fails to resolve. |
| Assortivity.Individual.SetAssortivityIndex | Eradication/Assortivity.cpp:443 | Only this relationship type's cache entry changes. |
| Assortivity.ScorePool.constructor | Eradication/Assortivity.cpp:366-368 | The scratch pool starts unallocated, with size -1. |
| Assortivity.ScorePool.Fill | Eradication/Assortivity.cpp:374-403 | The loop allocates the pool on first use. The pool then holds exactly the positively weighted candidates, truncated, and the returned total is their weight sum. |
| Assortivity.ScorePool.Push | Eradication/Assortivity.cpp:396-402 | One candidate is offered: kept when positive and there is room, with the total kept in step. |
| Assortivity.ScorePool.Pick | Eradication/Assortivity.cpp:409-420 | The cumulative scan returns the choice function's answer for the pool and draw. |
| Assortivity.Assortivity.constructor | Eradication/Assortivity.cpp:32-43 | A new object has no group, no axes, an empty matrix and the minimum start year, and is not active. |
| Assortivity.Assortivity.GetGroupToUse | Eradication/Assortivity.cpp:347-355 | The configured group applies only once started; before that there is no group. |
| Assortivity.Assortivity.Update | Eradication/Assortivity.cpp:341-345 | The group becomes active exactly when the current year is past the start year. |
| Assortivity.Assortivity.UsesStartYear | Eradication/Assortivity.cpp:272-278 | The groups for which Configure reads Start_Year (line 83): all but no group, STI infection status and individual properties. ReadStartYear uses it. |
| Assortivity.Assortivity.ReadStartYear | Eradication/Assortivity.cpp:83 | A group that uses a start year takes the configured year; any other group keeps the year it had, the constructor's minimum, so Update puts it in effect from the first later year. |
| Assortivity.Assortivity.CheckAxesForTrueFalse | Eradication/Assortivity.cpp:161-178 | The axes are upper-cased, and the check fails exactly when they are not TRUE and FALSE. The axes it leaves are already in upper case. |
| Assortivity.Assortivity.CheckAxesForProperty | Eradication/Assortivity.cpp:180-212 | The corrected check fails exactly when the axes do not match the property's values one for one. |
| Assortivity.Assortivity.LinesHavePositive | Eradication/Assortivity.cpp:226-251 | The inner loops report whether row i and column i have a positive entry. |
| Assortivity.Assortivity.CheckMatrix | Eradication/Assortivity.cpp:214-253 | The loops give exactly the matrix verdict: the first of non-square, all-zero row or all-zero column. |
| Assortivity.Assortivity.SortMatrixFalseTrue | Eradication/Assortivity.cpp:255-270 | TRUE-first axes are rewritten to FALSE, TRUE with the corners swapped; otherwise nothing changes. On TRUE/FALSE 2×2 input, this is the sort function. |
| Assortivity.Assortivity.ValidateConfiguration | Eradication/Assortivity.cpp:110-157 | For STI infection it checks the axes, then the matrix shape, then sorts the matrix and runs CheckMatrix on the sorted one; its outcome, errors included, is that of the corrected checks. For individual properties, a key, matching values and a valid matrix are needed. Other groups need a valid matrix, except no group. On success the object is ready. |
| Assortivity.Assortivity.ResolveIndex | Eradication/Assortivity.cpp:439-444 | Looking up one index caches it and returns the resolved index or the error. |
| Assortivity.Assortivity.ResolveNext | Eradication/Assortivity.cpp:453-458 | Resolving the next candidate extends the settled prefix and returns that candidate's index from its original cache. |
| Assortivity.Assortivity.ResolveCandidates | Eradication/Assortivity.cpp:451-458 | The loop returns the resolution of the original caches. On success every candidate's cache is refreshed, with aliasing between candidates and A handled. |
| Assortivity.Assortivity.ResolveIndices | Eradication/Assortivity.cpp:439-458 | Returns A's and the candidates' indices from the caches as they were on entry. On success every cache involved is refreshed. |
| Assortivity.Assortivity.FindPartner | Eradication/Assortivity.cpp:370-421 | The result is the pick over A's row and the candidates' boolean columns. |
| Assortivity.Assortivity.FindPartnerIP | Eradication/Assortivity.cpp:424-486 | The result is the property choice over the caches as they were on entry; on success the caches are refreshed. |
| Assortivity.Assortivity.SelectPartner | Eradication/Assortivity.cpp:296-332 | A missing A is an error, and no candidates gives nobody. Otherwise, by active group:<br>• no group: the first candidate;<br>• STI groups: the boolean pick;<br>• property group: the cached choice;<br>• other groups: an error.<br>Anyone chosen is a candidate. |

## Left out

- Reading JSON and files is not modelled. The metadata file is a `Metadata` value whose fields are already parsed; the binary file is a map from byte position to a block of (id, rate) slots. Path search and stream errors other than a missing block are not modelled.
- Random numbers are parameters. The uniform draw is a `draw` in [0, 1); the exponential waiting time is a function `expdist` of the total rate.
- Single- and double-precision floating point are modelled as exact reals. Rounding in the running sums and in `draw * total` is not captured.
- The source's constants MAX_DESTINATIONS and MAX_HUMAN_AGE come from headers that are not part of this model. They are taken as 100 and 125 years.
- MigrationInfoFactoryFile::Initialize is not modelled: it builds the file list from configuration and per-type limits defined in headers that are not part of this model.
- The text of exception messages is not modelled; each error is a constructor of an error datatype.
- SetContextTo, GetParams, GetCumulativeDistributionFunction, the destructors and the serialisation of the strategies are not modelled.
- InterpolatedValueMap's source is not part of this model. The following is assumed:
  - add keeps the first rate for an age already present;
  - linear interpolation runs between the bracketing samples, clamped at the ends;
  - piecewise-constant lookup takes the last sample at or below the age.
- Node suids are identified with external node ids. The conversion through the parent node is not modelled.
- MigrationFile.ParseMetadataAccepted: the expected file size is an unbounded integer. The source computes it as an unsigned 32-bit product, which can wrap.
- Configure's JSON reading, the Simulation_Type dependency checks and CheckDerivedValues are not modelled; the other HIV groups only get the matrix check.
- SelectPartnerForExtendedGroups throws in the source; the model returns an error for those groups.
- The source's scratch pool is a file-level static array shared by every Assortivity object. It is modelled as a `ScorePool` object passed to each call.
- MigrationInfo.Decide: uses the guard "no destination or a total rate that is not positive". The source skips only a total of exactly 0, so for a negative total it may choose a destination, or read past the end, where the model moves nobody.
- MigrationInfo.DecideNoMigration: states the corrected guard (total not positive). As written, the source applies this only to a total of exactly 0.
- MigrationInfo.MigrationInfoFixedRate.PickMigrationStep: uses the corrected guard of Decide (total not positive), not the source's test for a total of exactly 0.
- MigrationInfo.MigrationInfoAgeAndGender.PickMigrationStep: uses the corrected guard of Decide (total not positive), not the source's test for a total of exactly 0.
- MigrationInfo.PickMigrationStep: uses the corrected guard of Decide (total not positive), not the source's test for a total of exactly 0.
- Assortivity.Assortivity.CheckAxesForProperty: applies the corrected test, under which no axis may repeat. The source compares only the count of axes and the membership of each axis, so it accepts the axes A, A against the property values {A, B}, which the model rejects (see DuplicateAxisPassesAsWritten).
- Assortivity.Assortivity.ValidateConfiguration: checks that the STI matrix is 2×2 before sorting it, and uses the corrected axes test for properties. The source sorts first, so TRUE, FALSE axes with a matrix that is not 2×2 (for example [[1.0]]) index out of range there, where the model reports MatrixNotSquare (see StiAsWrittenReadsOutOfRange). It also accepts duplicate axes that the model rejects.
- Assortivity.Assortivity.ReadStartYear: the range check of Start_Year against MIN_YEAR and MAX_YEAR belongs to the JSON reading and is not modelled.
- Assortivity.Assortivity.FindPartnerIP: when some candidate's index fails to resolve, the source stops in the middle of filling the pool. The model resolves every index before filling, so after an error it states only the returned error and the validity of the pool, not its partial contents.

## Findings

| source | as written | input that shows it | evidently intended | confidence | as-written member | corrected member |
|---|---|---|---|---|---|---|
| Eradication/Assortivity.cpp:123-124, 155 | The STI matrix is sorted into FALSE, TRUE order before CheckMatrix has checked that it is 2×2. | Axes ["TRUE", "FALSE"] with the matrix [[1.0]]: the corner swap reads row 1 of a one-row matrix. | Check the matrix shape before sorting it. | not executed | AssortivityConfig.StiAsWrittenReadsOutOfRange | AssortivityConfig.StiChecks |
| Eradication/Assortivity.cpp:195-200 | CheckAxesForProperty compares sizes and checks that each axis is a property value, so a repeated axis passes. | Axes ["A", "A"] against the values {A, B}: the check passes, but B has no axis, and GetIndex later throws for it. | Each property value appears exactly once among the axes. | not executed | AssortivityConfig.DuplicateAxisPassesAsWritten | AssortivityConfig.CorrectedAxesResolveEveryValue |
| Eradication/Migration.cpp:239, 252-257 | The guard only skips a total rate of exactly 0, so a negative total leaves the distribution unnormalised and the scan can leave the array. | A single rate -1.0 with a draw of 0.5: no entry reaches the draw and the index runs past the end. | Skip migration whenever the total rate is not positive. | not executed | MigrationInfo.PickAsWrittenReadsPastEnd | MigrationInfo.CorrectedGuardInBounds |
| Eradication/Migration.cpp:239-258 | The same guard lets a negative total choose a destination without any error. | Rates -1.0 and 0.5 (total -0.5) with a draw of 0.3: the unnormalised entry 0.5 reaches the draw, so destination 1 is chosen with the waiting time for the rate -0.5. | Skip migration whenever the total rate is not positive. | not executed | MigrationInfo.PickAsWrittenChoosesOnNegativeTotal | MigrationInfo.DecideNoMigration |

Where the documented behaviour and the code differ, the model follows the code:

- The destination scan stops at the first cumulative entry that is at least the draw, not strictly above it.
- The ages in a migration file only need to be non-decreasing.
