/**
 * MigrationInfoFile: one migration file of one migration type. Its JSON
 * metadata is validated into a binary layout, and the records of a node are
 * read from the binary data and merged into the node's rate data.
 */
module MigrationFile {
  import opened Results
  import opened Text
  import opened MigrationRates
  import opened NodeOffsets

  /** Capacity of the read buffers: the largest DatavalueCount accepted. */
  const MAX_DESTINATIONS: nat := 100

  /** Bytes per destination slot: a 32-bit node id and a 64-bit rate. */
  const BYTES_PER_SLOT: nat := 12

  datatype GenderDataType = SameForBothGenders | OneForEachGender

  /** An optional enumeration key: absent, a known name, or a name no enumerator has. */
  datatype EnumField<T> = Absent | Known(value: T) | Unrecognised(text: string)

  /** The optional AgesYears key: absent, present but not an array, or an array of ages. */
  datatype AgesField = AgesAbsent | AgesNotArray | AgesArray(ages: seq<real>)

  /** The keys of the metadata file that the parser consults. */
  datatype Metadata = Metadata(
    idReference: string,
    datavalueCount: Option<int>,
    migrationType: EnumField<MigrationType>,
    genderDataType: EnumField<GenderDataType>,
    agesYears: AgesField,
    interpolationType: EnumField<InterpolationType>,
    nodeCount: int,
    nodeOffsets: string)

  /** The exceptions raised while loading a migration file or reading from it. */
  datatype FileError =
    | FilenameEmpty
    | IdReferenceMismatch
    | DatavalueCountOutOfRange(count: int)
    | InvalidEnumValue(key: string)
    | MigrationTypeMismatch
    | AgesNotAnArray
    | InvalidAge(index: nat)
    | NodeCountMismatch
    | OffsetBeyondFile
    | FileNotFound
    | WrongFileSize
    | ReadFailed
    | InconsistentDestinations

  /** What the metadata fixes about the binary data file. */
  datatype Layout = Layout(
    destinationsPerNode: nat,
    genderDataType: GenderDataType,
    interpolationType: InterpolationType,
    agesYears: seq<real>,
    offsets: map<NodeId, nat>,
    ageDataSize: nat,
    genderDataSize: nat)

  /** One destination slot of the binary file: a node id (0 is padding) and a rate. */
  datatype Slot = Slot(id: NodeId, rate: real)

  /**
   * The binary data file: its size in bytes and, at each position a record
   * block starts, the slots stored there.
   */
  datatype BinaryFile = BinaryFile(size: nat, blocks: map<nat, seq<Slot>>)

  const CLOSED_FILE: BinaryFile := BinaryFile(0, map[])

  /** GetNumGenderDataChunks: one block of rates shared by both genders, or one per gender. */
  function GenderDataChunks(g: GenderDataType): (n: nat)
    ensures n == 1 <==> g == SameForBothGenders
    ensures g == OneForEachGender ==> n == 2
  {
    if g == SameForBothGenders then 1 else 2
  }

  /** The size of the data file: one gender section per chunk. */
  function ExpectedSize(l: Layout): (size: nat)
    ensures l.genderDataType == SameForBothGenders ==> size == l.genderDataSize
    ensures l.genderDataType == OneForEachGender ==> size == 2 * l.genderDataSize
  {
    GenderDataChunks(l.genderDataType) * l.genderDataSize
  }

  /** Age i is within [0, MAX_HUMAN_AGE] and not below the age before it. */
  predicate AgeOk(ages: seq<real>, i: nat)
    requires i < |ages|
  {
    0.0 <= ages[i] <= MAX_HUMAN_AGE && (i == 0 || ages[i - 1] <= ages[i])
  }

  /** The first index at or after i whose age is rejected. */
  function FirstBadAge(ages: seq<real>, i: nat): (r: Option<nat>)
    requires i <= |ages|
    ensures r.None? <==> forall j :: i <= j < |ages| ==> AgeOk(ages, j)
    ensures r.Some? ==> i <= r.value < |ages| && !AgeOk(ages, r.value) &&
                        forall j :: i <= j < r.value ==> AgeOk(ages, j)
    decreases |ages| - i
  {
    if i == |ages| then None
    else if !AgeOk(ages, i) then Some(i)
    else FirstBadAge(ages, i + 1)
  }

  predicate OffsetsInside(offsets: map<NodeId, nat>, size: nat)
  {
    forall id :: id in offsets ==> offsets[id] < size
  }

  /** The layout a validated metadata file describes. */
  function MakeLayout(md: Metadata, destinations: nat, ages: seq<real>, offsets: map<NodeId, nat>): (l: Layout)
    ensures l.destinationsPerNode == destinations && l.agesYears == ages && l.offsets == offsets
    ensures l.ageDataSize == |offsets| * destinations * BYTES_PER_SLOT
    ensures l.genderDataSize == |ages| * l.ageDataSize
    ensures md.genderDataType.Known? ==> l.genderDataType == md.genderDataType.value
    ensures md.genderDataType.Absent? ==> l.genderDataType == SameForBothGenders
    ensures md.interpolationType.Absent? ==> l.interpolationType == LinearInterpolation
  {
    var ageDataSize := |offsets| * destinations * BYTES_PER_SLOT;
    Layout(destinations,
           if md.genderDataType.Known? then md.genderDataType.value else SameForBothGenders,
           if md.interpolationType.Known? then md.interpolationType.value else LinearInterpolation,
           ages, offsets, ageDataSize, |ages| * ageDataSize)
  }

  /** The checks on the metadata keys read before the ages, in file order. */
  function HeaderError(md: Metadata, idReference: string, expectedType: MigrationType): (e: Option<FileError>)
    ensures e.None? <==>
              && ToLower(md.idReference) == ToLower(idReference)
              && (md.datavalueCount.Some? ==> 0 < md.datavalueCount.value <= MAX_DESTINATIONS)
              && !md.migrationType.Unrecognised?
              && (md.migrationType.Known? ==> md.migrationType.value == expectedType)
              && !md.genderDataType.Unrecognised?
    ensures ToLower(md.idReference) != ToLower(idReference) ==> e == Some(IdReferenceMismatch)
  {
    if ToLower(md.idReference) != ToLower(idReference) then Some(IdReferenceMismatch)
    else if md.datavalueCount.Some? && !(0 < md.datavalueCount.value <= MAX_DESTINATIONS) then
      Some(DatavalueCountOutOfRange(md.datavalueCount.value))
    else if md.migrationType.Unrecognised? then Some(InvalidEnumValue("MigrationType"))
    else if md.migrationType.Known? && md.migrationType.value != expectedType then Some(MigrationTypeMismatch)
    else if md.genderDataType.Unrecognised? then Some(InvalidEnumValue("GenderDataType"))
    else None
  }

  /** The AgesYears key: the validated array, or the single age MAX_HUMAN_AGE when absent. */
  function ParsedAges(f: AgesField): (r: Result<seq<real>, FileError>)
    ensures f.AgesAbsent? ==> r == Ok([MAX_HUMAN_AGE])
    ensures f.AgesArray? ==> (r.Ok? <==> forall j :: 0 <= j < |f.ages| ==> AgeOk(f.ages, j))
    ensures r.Ok? ==> forall i :: 0 <= i < |r.value| ==> AgeOk(r.value, i)
    ensures r.Err? ==> (r.error == AgesNotAnArray <==> f.AgesNotArray?)
  {
    match f
    case AgesAbsent => Ok([MAX_HUMAN_AGE])
    case AgesNotArray => Err(AgesNotAnArray)
    case AgesArray(ages) =>
      if FirstBadAge(ages, 0).Some? then Err(InvalidAge(FirstBadAge(ages, 0).value)) else Ok(ages)
  }

  /**
   * ParseMetadataForFile as a function of the metadata: the checks in the
   * order the file is read, the first failing one deciding the exception.
   */
  function ParseMetadata(md: Metadata, idReference: string, expectedType: MigrationType,
                         defaultDestinations: nat): (r: Result<Layout, FileError>)
    ensures HeaderError(md, idReference, expectedType).Some? ==> r == Err(HeaderError(md, idReference, expectedType).value)
    ensures r.Ok? ==> HeaderError(md, idReference, expectedType).None? && ParsedAges(md.agesYears) == Ok(r.value.agesYears)
    ensures r.Ok? ==> OffsetsInside(r.value.offsets, ExpectedSize(r.value))
  {
    if HeaderError(md, idReference, expectedType).Some? then Err(HeaderError(md, idReference, expectedType).value)
    else match ParsedAges(md.agesYears)
      case Err(e) => Err(e)
      case Ok(ages) =>
        var destinations := if md.datavalueCount.Some? then md.datavalueCount.value as nat else defaultDestinations;
        LayoutAfterAges(md, destinations, ages)
  }

  /** The checks that follow the ages: interpolation type, node count, offsets inside the file. */
  function LayoutAfterAges(md: Metadata, destinations: nat, ages: seq<real>): (r: Result<Layout, FileError>)
    ensures r.Ok? ==> !md.interpolationType.Unrecognised? && |md.nodeOffsets| / RECORD_WIDTH == md.nodeCount
    ensures r.Ok? ==> r.value.agesYears == ages && r.value.destinationsPerNode == destinations
    ensures r.Ok? ==> OffsetsInside(r.value.offsets, ExpectedSize(r.value))
    ensures r.Err? ==> r.error in {InvalidEnumValue("InterpolationType"), NodeCountMismatch, OffsetBeyondFile}
  {
    if md.interpolationType.Unrecognised? then Err(InvalidEnumValue("InterpolationType"))
    else if |md.nodeOffsets| / RECORD_WIDTH != md.nodeCount then Err(NodeCountMismatch)
    else
      var layout := MakeLayout(md, destinations, ages, DecodeOffsets(md.nodeOffsets, md.nodeCount));
      if !OffsetsInside(layout.offsets, ExpectedSize(layout)) then Err(OffsetBeyondFile)
      else Ok(layout)
  }

  lemma {:induction false} AgesSorted(ages: seq<real>)
    requires forall j :: 0 <= j < |ages| ==> AgeOk(ages, j)
    ensures forall i, j :: 0 <= i <= j < |ages| ==> ages[i] <= ages[j]
  {
    if |ages| > 1 {
      var init := ages[..|ages| - 1];
      assert forall j :: 0 <= j < |init| ==> AgeOk(init, j) by {
        forall j | 0 <= j < |init| ensures AgeOk(init, j) {
          assert AgeOk(ages, j);
        }
      }
      AgesSorted(init);
      forall i, j | 0 <= i <= j < |ages| ensures ages[i] <= ages[j] {
        if j == |ages| - 1 && i < j {
          assert AgeOk(ages, j);
          assert init[i] <= init[j - 1];
        } else if i < j {
          assert init[i] <= init[j];
        }
      }
    }
  }

  /**
   * An accepted metadata file: the id references agree ignoring case, the
   * destination count is in 1..MAX_DESTINATIONS, a stated migration type is
   * the expected one, the ages are in [0, MAX_HUMAN_AGE] and non-decreasing
   * (defaulting to the single age MAX_HUMAN_AGE), the offsets map is decoded
   * from NodeCount records, the expected file size is
   * chunks x ages x nodes x destinations x 12 bytes, and every offset is below it.
   */
  lemma ParseMetadataAccepted(md: Metadata, idReference: string, expectedType: MigrationType,
                              defaultDestinations: nat)
    requires 0 < defaultDestinations <= MAX_DESTINATIONS
    requires ParseMetadata(md, idReference, expectedType, defaultDestinations).Ok?
    ensures var l := ParseMetadata(md, idReference, expectedType, defaultDestinations).value;
      && ToLower(md.idReference) == ToLower(idReference)
      && 0 < l.destinationsPerNode <= MAX_DESTINATIONS
      && l.destinationsPerNode == (if md.datavalueCount.Some? then md.datavalueCount.value else defaultDestinations)
      && (md.migrationType.Known? ==> md.migrationType.value == expectedType)
      && (md.agesYears.AgesAbsent? ==> l.agesYears == [MAX_HUMAN_AGE])
      && (md.agesYears.AgesArray? ==> l.agesYears == md.agesYears.ages)
      && (forall i :: 0 <= i < |l.agesYears| ==> 0.0 <= l.agesYears[i] <= MAX_HUMAN_AGE)
      && (forall i, j :: 0 <= i <= j < |l.agesYears| ==> l.agesYears[i] <= l.agesYears[j])
      && md.nodeCount >= 0 && md.nodeCount == |md.nodeOffsets| / RECORD_WIDTH
      && l.offsets == DecodeOffsets(md.nodeOffsets, md.nodeCount)
      && ExpectedSize(l) == GenderDataChunks(l.genderDataType) * |l.agesYears| * |l.offsets|
                            * l.destinationsPerNode * BYTES_PER_SLOT
      && (forall id :: id in l.offsets ==> l.offsets[id] < ExpectedSize(l))
  {
    var l := ParseMetadata(md, idReference, expectedType, defaultDestinations).value;
    assert HeaderError(md, idReference, expectedType).None?;
    var ages := ParsedAges(md.agesYears).value;
    assert l.agesYears == ages;
    forall i | 0 <= i < |ages| ensures 0.0 <= ages[i] <= MAX_HUMAN_AGE {
      assert AgeOk(ages, i);
    }
    AgesSorted(ages);
    LayoutSize(md, l.destinationsPerNode, ages, l.offsets);
  }

  /** The expected size of a layout is the product of its five dimensions. */
  lemma LayoutSize(md: Metadata, destinations: nat, ages: seq<real>, offsets: map<NodeId, nat>)
    ensures var l := MakeLayout(md, destinations, ages, offsets);
            ExpectedSize(l) == GenderDataChunks(l.genderDataType) * |ages| * |offsets| * destinations * BYTES_PER_SLOT
  {
    var l := MakeLayout(md, destinations, ages, offsets);
    var c, a, n, d := GenderDataChunks(l.genderDataType), |ages|, |offsets|, destinations;
    var s := n * d * BYTES_PER_SLOT;
    assert l.genderDataSize == a * s;
    assert c * (a * s) == c * a * s;
    assert c * a * s == c * a * n * d * BYTES_PER_SLOT;
  }

  /** Conversely, metadata that passes every check is accepted. */
  lemma ParseMetadataComplete(md: Metadata, idReference: string, expectedType: MigrationType,
                              defaultDestinations: nat)
    requires ToLower(md.idReference) == ToLower(idReference)
    requires md.datavalueCount.Some? ==> 0 < md.datavalueCount.value <= MAX_DESTINATIONS
    requires !md.migrationType.Unrecognised? && (md.migrationType.Known? ==> md.migrationType.value == expectedType)
    requires !md.genderDataType.Unrecognised? && !md.interpolationType.Unrecognised?
    requires !md.agesYears.AgesNotArray?
    requires md.agesYears.AgesArray? ==>
      && (forall i :: 0 <= i < |md.agesYears.ages| ==> 0.0 <= md.agesYears.ages[i] <= MAX_HUMAN_AGE)
      && (forall i, j :: 0 <= i <= j < |md.agesYears.ages| ==> md.agesYears.ages[i] <= md.agesYears.ages[j])
    requires md.nodeCount == |md.nodeOffsets| / RECORD_WIDTH
    requires var d := if md.datavalueCount.Some? then md.datavalueCount.value as nat else defaultDestinations;
             var l := MakeLayout(md, d, if md.agesYears.AgesArray? then md.agesYears.ages else [MAX_HUMAN_AGE],
                                 DecodeOffsets(md.nodeOffsets, md.nodeCount));
             OffsetsInside(l.offsets, ExpectedSize(l))
    ensures ParseMetadata(md, idReference, expectedType, defaultDestinations).Ok?
  {
    if md.agesYears.AgesArray? {
      var ages := md.agesYears.ages;
      forall j | 0 <= j < |ages| ensures AgeOk(ages, j) {
        if j > 0 {
          assert ages[j - 1] <= ages[j];
        }
      }
    }
  }

  /** The id reference is compared without regard to the case of its letters. */
  lemma ParseMetadataIgnoresCase(md: Metadata, idReference: string, expectedType: MigrationType,
                                 defaultDestinations: nat)
    ensures ParseMetadata(md.(idReference := ToUpper(md.idReference)), ToUpper(idReference), expectedType, defaultDestinations)
         == ParseMetadata(md, idReference, expectedType, defaultDestinations)
  {
    ToLowerIgnoresCase(md.idReference);
    ToLowerIgnoresCase(idReference);
  }

  /**
   * A NodeOffsets string written from (node id, offset) pairs, with NodeCount
   * the number of pairs, passes the count check and decodes to the map of
   * the pairs (the offsets map of an accepted file, by ParseMetadataAccepted).
   */
  lemma EncodedOffsetsDecode(md: Metadata, pairs: seq<(nat, nat)>)
    requires forall i :: 0 <= i < |pairs| ==> pairs[i].0 < 0x1_0000_0000 && pairs[i].1 < 0x1_0000_0000
    requires md.nodeOffsets == EncodeOffsets(pairs) && md.nodeCount == |pairs|
    ensures |md.nodeOffsets| / RECORD_WIDTH == md.nodeCount
    ensures DecodeOffsets(md.nodeOffsets, md.nodeCount) == PairsToMap(pairs)
  {
    OffsetsRoundTrip(pairs, []);
    assert EncodeOffsets(pairs) + [] == EncodeOffsets(pairs);
  }

  /** OpenMigrationFile: the data file must exist and have exactly the expected size. */
  function OpenCheck(file: Option<BinaryFile>, expectedSize: nat): (e: Option<FileError>)
    ensures e.None? <==> file.Some? && file.value.size == expectedSize
    ensures e.Some? ==> (e.value == FileNotFound <==> file.None?)
    ensures e.Some? ==> e.value == FileNotFound || e.value == WrongFileSize
  {
    if file.None? then Some(FileNotFound)
    else if file.value.size != expectedSize then Some(WrongFileSize)
    else None
  }

  /** Initialize of an enabled file: filename, metadata, then the data file. */
  function Load(md: Metadata, idReference: string, expectedType: MigrationType, defaultDestinations: nat,
                filename: string, file: Option<BinaryFile>): (r: Result<(Layout, BinaryFile), FileError>)
    ensures filename == [] ==> r == Err(FilenameEmpty)
    ensures r.Ok? ==> Ok(r.value.0) == ParseMetadata(md, idReference, expectedType, defaultDestinations)
    ensures r.Ok? ==> file == Some(r.value.1) && r.value.1.size == ExpectedSize(r.value.0)
  {
    if filename == [] then Err(FilenameEmpty)
    else match ParseMetadata(md, idReference, expectedType, defaultDestinations)
      case Err(e) => Err(e)
      case Ok(l) =>
        if OpenCheck(file, ExpectedSize(l)).Some? then Err(OpenCheck(file, ExpectedSize(l)).value)
        else Ok((l, file.value))
  }

  /** A loaded file has the size its layout predicts and every node offset inside it. */
  lemma LoadedFileMatchesLayout(md: Metadata, idReference: string, expectedType: MigrationType,
                                defaultDestinations: nat, filename: string, file: Option<BinaryFile>)
    requires Load(md, idReference, expectedType, defaultDestinations, filename, file).Ok?
    ensures var (l, f) := Load(md, idReference, expectedType, defaultDestinations, filename, file).value;
            filename != [] && file == Some(f) && f.size == ExpectedSize(l) &&
            forall id :: id in l.offsets ==> l.offsets[id] < f.size
  {
  }

  // ------------------------------------------------------------------
  // Reading one node's records
  // ------------------------------------------------------------------

  /** The dest slots stored at byte position pos, or None when the read fails. */
  function ReadBlock(file: BinaryFile, pos: nat, dest: nat): (b: Option<seq<Slot>>)
    ensures b.Some? ==> |b.value| == dest && pos + dest * BYTES_PER_SLOT <= file.size
    ensures b.Some? ==> pos in file.blocks && b.value == file.blocks[pos]
    ensures dest > 0 && pos >= file.size ==> b.None?
  {
    if pos in file.blocks && |file.blocks[pos]| == dest && pos + dest * BYTES_PER_SLOT <= file.size
    then Some(file.blocks[pos]) else None
  }

  /** Where the block for (gender chunk g, age index a) of a node starts. */
  function ReadPosition(l: Layout, g: nat, a: nat, nodeOffset: nat): (pos: nat)
    ensures g * l.genderDataSize + a * l.ageDataSize <= pos
    ensures pos < g * l.genderDataSize + a * l.ageDataSize + l.ageDataSize <==> nodeOffset < l.ageDataSize
  {
    g * l.genderDataSize + a * l.ageDataSize + nodeOffset
  }

  /** The gender chunk read for gender ig: chunk 0 for both when the genders share data. */
  function GenderFileIndex(chunks: nat, ig: nat): nat
  {
    if chunks == 1 then 0 else ig
  }

  /** A slot's rate times the file's multiplier (the migration tuning knob). */
  function ScaledRate(s: Slot, modifier: real): real
  {
    s.rate * modifier
  }

  /** The new destination a slot creates. */
  function NewEntry(s: Slot, age: real, modifier: real, t: MigrationType, interp: InterpolationType): MigrationRateData
  {
    AddRate(NewRateData(s.id, t, interp), age, ScaledRate(s, modifier))
  }

  lemma AddKeepsReadable(list: seq<MigrationRateData>, j: nat, age: real, rate: real)
    requires AllReadable(list) && j < |list|
    ensures AllReadable(list[j := AddRate(list[j], age, rate)])
  {
  }

  lemma AppendKeepsReadable(list: seq<MigrationRateData>, s: Slot, age: real, modifier: real, t: MigrationType,
                            interp: InterpolationType)
    requires AllReadable(list)
    ensures AllReadable(list + [NewEntry(s, age, modifier, t, interp)])
  {
    assert !HasAge([], age);
  }

  /**
   * The merge of one block into a gender's list: padding slots (id 0) are
   * skipped; the k-th non-padding slot goes to position nodeIndex + k, as a
   * new destination past the end of the list or, inside it, as an extra
   * sample of a destination that must have the same node and type.
   */
  function MergeSlots(list: seq<MigrationRateData>, slots: seq<Slot>, nodeIndex: nat, age: real,
                      modifier: real, t: MigrationType, interp: InterpolationType): (r: Result<seq<MigrationRateData>, FileError>)
    requires AllReadable(list) && nodeIndex <= |list|
    ensures r.Ok? ==> AllReadable(r.value) && |r.value| >= |list|
    ensures r.Err? ==> r.error == InconsistentDestinations
    decreases |slots|
  {
    if slots == [] then Ok(list)
    else if slots[0].id == 0 then MergeSlots(list, slots[1..], nodeIndex, age, modifier, t, interp)
    else if |list| <= nodeIndex then
      MergeSlots(list + [NewEntry(slots[0], age, modifier, t, interp)], slots[1..], nodeIndex + 1, age, modifier, t, interp)
    else if list[nodeIndex].toNode != slots[0].id || list[nodeIndex].migType != t then Err(InconsistentDestinations)
    else
      MergeSlots(list[nodeIndex := AddRate(list[nodeIndex], age, ScaledRate(slots[0], modifier))], slots[1..],
                 nodeIndex + 1, age, modifier, t, interp)
  }

  /** The merge of the blocks of ages ja.. of one gender chunk, each starting at position start. */
  function MergeAges(list: seq<MigrationRateData>, l: Layout, file: BinaryFile, modifier: real, t: MigrationType,
                     g: nat, nodeOffset: nat, start: nat, ja: nat): (r: Result<seq<MigrationRateData>, FileError>)
    requires AllReadable(list) && start <= |list| && ja <= |l.agesYears|
    ensures r.Ok? ==> AllReadable(r.value) && |r.value| >= |list|
    decreases |l.agesYears| - ja
  {
    if ja == |l.agesYears| then Ok(list)
    else match ReadBlock(file, ReadPosition(l, g, ja, nodeOffset), l.destinationsPerNode)
      case None => Err(ReadFailed)
      case Some(slots) =>
        match MergeSlots(list, slots, start, l.agesYears[ja], modifier, t, l.interpolationType)
        case Err(e) => Err(e)
        case Ok(next) => MergeAges(next, l, file, modifier, t, g, nodeOffset, start, ja + 1)
  }

  predicate TwoReadable(data: seq<seq<MigrationRateData>>)
  {
    |data| == 2 && AllReadable(data[0]) && AllReadable(data[1])
  }

  /** The merge for genders ig.. (0 male, 1 female), each appending past its list's old end. */
  function MergeGenders(data: seq<seq<MigrationRateData>>, l: Layout, file: BinaryFile, modifier: real,
                        t: MigrationType, nodeOffset: nat, ig: nat): (r: Result<seq<seq<MigrationRateData>>, FileError>)
    requires TwoReadable(data) && ig <= 2
    ensures r.Ok? ==> TwoReadable(r.value)
    decreases 2 - ig
  {
    if ig == 2 then Ok(data)
    else
      var g := GenderFileIndex(GenderDataChunks(l.genderDataType), ig);
      match MergeAges(data[ig], l, file, modifier, t, g, nodeOffset, |data[ig]|, 0)
      case Err(e) => Err(e)
      case Ok(list) => MergeGenders(data[ig := list], l, file, modifier, t, nodeOffset, ig + 1)
  }

  /** The rate data is either not started or holds one list per gender. */
  predicate RateDataShape(data: seq<seq<MigrationRateData>>)
  {
    |data| == 0 || TwoReadable(data)
  }

  /** The data read is fixed-rate: one chunk for both genders and the single age MAX_HUMAN_AGE. */
  predicate IsFixedRate(l: Layout)
  {
    GenderDataChunks(l.genderDataType) == 1 && |l.agesYears| == 1 && l.agesYears[0] == MAX_HUMAN_AGE
  }

  /**
   * ReadData as a function: a disabled file, or a node the file does not
   * list, leaves the data as it is and reports fixed-rate; otherwise both
   * gender lists are created if needed and the node's blocks are merged.
   */
  function ReadDataSpec(l: Layout, file: BinaryFile, modifier: real, t: MigrationType, enabled: bool,
                        fromNode: NodeId, data: seq<seq<MigrationRateData>>): (r: Result<(bool, seq<seq<MigrationRateData>>), FileError>)
    requires RateDataShape(data)
    ensures r.Ok? ==> RateDataShape(r.value.1)
  {
    if !enabled || fromNode !in l.offsets then Ok((true, data))
    else
      var initial := if |data| != 2 then [[], []] else data;
      match MergeGenders(initial, l, file, modifier, t, l.offsets[fromNode], 0)
      case Err(e) => Err(e)
      case Ok(merged) => Ok((IsFixedRate(l), merged))
  }

  // ------------------------------------------------------------------
  // Properties of the merge
  // ------------------------------------------------------------------

  function Max(a: int, b: int): int
  {
    if a < b then b else a
  }

  /** The slots that carry a destination, in file order. */
  function NonZero(slots: seq<Slot>): (nz: seq<Slot>)
    ensures |nz| <= |slots|
    ensures forall k :: 0 <= k < |nz| ==> nz[k].id != 0 && nz[k] in slots
  {
    if slots == [] then []
    else if slots[0].id == 0 then NonZero(slots[1..])
    else [slots[0]] + NonZero(slots[1..])
  }

  /** Some slot lands on an existing destination with another node or another type. */
  predicate Conflicts(list: seq<MigrationRateData>, nz: seq<Slot>, nodeIndex: nat, t: MigrationType)
  {
    exists k :: 0 <= k < |nz| && ConflictAt(list, nz, nodeIndex, t, k)
  }

  /** Slot k lands on an existing destination with another node or another type. */
  predicate ConflictAt(list: seq<MigrationRateData>, nz: seq<Slot>, nodeIndex: nat, t: MigrationType, k: int)
  {
    0 <= k < |nz| && nodeIndex + k < |list| &&
      (list[nodeIndex + k].toNode != nz[k].id || list[nodeIndex + k].migType != t)
  }

  lemma ConflictsShift(list: seq<MigrationRateData>, list': seq<MigrationRateData>, nz: seq<Slot>, nodeIndex: nat, t: MigrationType)
    requires |nz| > 0 && nodeIndex < |list| == |list'|
    requires list[nodeIndex].toNode == nz[0].id && list[nodeIndex].migType == t
    requires forall j :: 0 <= j < |list| && j != nodeIndex ==> list'[j] == list[j]
    ensures Conflicts(list, nz, nodeIndex, t) <==> Conflicts(list', nz[1..], nodeIndex + 1, t)
  {
    if Conflicts(list, nz, nodeIndex, t) {
      var k :| 0 <= k < |nz| && ConflictAt(list, nz, nodeIndex, t, k);
      assert nodeIndex + k < |list|;
      assert k > 0;
      assert nz[1..][k - 1] == nz[k];
      assert list'[nodeIndex + 1 + (k - 1)] == list[nodeIndex + k];
      assert ConflictAt(list', nz[1..], nodeIndex + 1, t, k - 1);
    }
    if Conflicts(list', nz[1..], nodeIndex + 1, t) {
      var k :| 0 <= k < |nz[1..]| && ConflictAt(list', nz[1..], nodeIndex + 1, t, k);
      assert nodeIndex + 1 + k < |list'|;
      assert nz[1..][k] == nz[k + 1];
      assert list'[nodeIndex + 1 + k] == list[nodeIndex + (k + 1)];
      assert ConflictAt(list, nz, nodeIndex, t, k + 1);
    }
  }

  /**
   * The list that merging the non-padding slots nz at nodeIndex should give:
   * only positions nodeIndex .. nodeIndex + |nz| - 1 change, the k-th slot
   * adding its scaled rate at nodeIndex + k to the destination already there,
   * or becoming a new destination past the end of the list.
   */
  function Merged(list: seq<MigrationRateData>, nz: seq<Slot>, nodeIndex: nat, age: real, modifier: real,
                  t: MigrationType, interp: InterpolationType): seq<MigrationRateData>
    requires AllReadable(list) && nodeIndex <= |list|
  {
    seq(Max(|list|, nodeIndex + |nz|), j requires 0 <= j < Max(|list|, nodeIndex + |nz|) =>
      MergedEntry(list, nz, nodeIndex, age, modifier, t, interp, j))
  }

  /** Entry j of Merged. */
  function MergedEntry(list: seq<MigrationRateData>, nz: seq<Slot>, nodeIndex: nat, age: real, modifier: real,
                       t: MigrationType, interp: InterpolationType, j: nat): MigrationRateData
    requires AllReadable(list) && nodeIndex <= |list| && j < Max(|list|, nodeIndex + |nz|)
  {
    if j < nodeIndex || nodeIndex + |nz| <= j then list[j]
    else if j < |list| then AddRate(list[j], age, ScaledRate(nz[j - nodeIndex], modifier))
    else NewEntry(nz[j - nodeIndex], age, modifier, t, interp)
  }

  lemma AppendMerged(list: seq<MigrationRateData>, nz: seq<Slot>, nodeIndex: nat, age: real, modifier: real,
                     t: MigrationType, interp: InterpolationType)
    requires AllReadable(list) && nodeIndex == |list| && |nz| > 0
    requires AllReadable(list + [NewEntry(nz[0], age, modifier, t, interp)])
    ensures Merged(list + [NewEntry(nz[0], age, modifier, t, interp)], nz[1..], nodeIndex + 1, age, modifier, t, interp)
         == Merged(list, nz, nodeIndex, age, modifier, t, interp)
  {
    var list' := list + [NewEntry(nz[0], age, modifier, t, interp)];
    var m', m := Merged(list', nz[1..], nodeIndex + 1, age, modifier, t, interp), Merged(list, nz, nodeIndex, age, modifier, t, interp);
    assert |m'| == |m|;
    forall j | 0 <= j < |m| ensures m'[j] == m[j] {
      if j > nodeIndex {
        assert nz[1..][j - (nodeIndex + 1)] == nz[j - nodeIndex];
      }
    }
  }

  lemma UpdateMerged(list: seq<MigrationRateData>, nz: seq<Slot>, nodeIndex: nat, age: real, modifier: real,
                     t: MigrationType, interp: InterpolationType)
    requires AllReadable(list) && nodeIndex < |list| && |nz| > 0
    requires AllReadable(list[nodeIndex := AddRate(list[nodeIndex], age, ScaledRate(nz[0], modifier))])
    ensures Merged(list[nodeIndex := AddRate(list[nodeIndex], age, ScaledRate(nz[0], modifier))], nz[1..], nodeIndex + 1,
                   age, modifier, t, interp)
         == Merged(list, nz, nodeIndex, age, modifier, t, interp)
  {
    var list' := list[nodeIndex := AddRate(list[nodeIndex], age, ScaledRate(nz[0], modifier))];
    var m', m := Merged(list', nz[1..], nodeIndex + 1, age, modifier, t, interp), Merged(list, nz, nodeIndex, age, modifier, t, interp);
    assert |m'| == |m|;
    forall j | 0 <= j < |m| ensures m'[j] == m[j] {
      UpdatedEntry(list, nz, nodeIndex, age, modifier, t, interp, j);
    }
  }

  lemma UpdatedEntry(list: seq<MigrationRateData>, nz: seq<Slot>, nodeIndex: nat, age: real, modifier: real,
                     t: MigrationType, interp: InterpolationType, j: nat)
    requires AllReadable(list) && nodeIndex < |list| && |nz| > 0 && j < Max(|list|, nodeIndex + |nz|)
    requires AllReadable(list[nodeIndex := AddRate(list[nodeIndex], age, ScaledRate(nz[0], modifier))])
    ensures MergedEntry(list[nodeIndex := AddRate(list[nodeIndex], age, ScaledRate(nz[0], modifier))], nz[1..],
                        nodeIndex + 1, age, modifier, t, interp, j)
         == MergedEntry(list, nz, nodeIndex, age, modifier, t, interp, j)
  {
    if nodeIndex < j < nodeIndex + |nz| {
      assert nz[1..][j - (nodeIndex + 1)] == nz[j - nodeIndex];
    }
  }

  /**
   * Merging a block fails exactly when a non-padding slot lands on a
   * destination of another node or type, and otherwise gives Merged.
   */
  predicate MergesAsSpecified(list: seq<MigrationRateData>, slots: seq<Slot>, nodeIndex: nat, age: real,
                              modifier: real, t: MigrationType, interp: InterpolationType)
    requires AllReadable(list) && nodeIndex <= |list|
  {
    MergeSlots(list, slots, nodeIndex, age, modifier, t, interp)
      == if Conflicts(list, NonZero(slots), nodeIndex, t) then Err(InconsistentDestinations)
         else Ok(Merged(list, NonZero(slots), nodeIndex, age, modifier, t, interp))
  }

  lemma {:induction false} MergeSlotsIsMerged(list: seq<MigrationRateData>, slots: seq<Slot>, nodeIndex: nat, age: real,
                                              modifier: real, t: MigrationType, interp: InterpolationType)
    requires AllReadable(list) && nodeIndex <= |list|
    ensures MergesAsSpecified(list, slots, nodeIndex, age, modifier, t, interp)
    decreases |slots|, 1
  {
    var nz := NonZero(slots);
    if slots == [] {
      assert Merged(list, nz, nodeIndex, age, modifier, t, interp) == list;
    } else if slots[0].id == 0 {
      MergeSlotsIsMerged(list, slots[1..], nodeIndex, age, modifier, t, interp);
    } else if |list| <= nodeIndex {
      MergeAppendCase(list, slots, nodeIndex, age, modifier, t, interp);
    } else if list[nodeIndex].toNode != slots[0].id || list[nodeIndex].migType != t {
      assert nz[0] == slots[0];
      assert ConflictAt(list, nz, nodeIndex, t, 0);
    } else {
      MergeUpdateCase(list, slots, nodeIndex, age, modifier, t, interp);
    }
  }

  lemma {:induction false} MergeAppendCase(list: seq<MigrationRateData>, slots: seq<Slot>, nodeIndex: nat, age: real,
                                           modifier: real, t: MigrationType, interp: InterpolationType)
    requires AllReadable(list) && nodeIndex == |list|
    requires slots != [] && slots[0].id != 0
    ensures MergesAsSpecified(list, slots, nodeIndex, age, modifier, t, interp)
    decreases |slots|, 0
  {
    var nz := NonZero(slots);
    var s := slots[0];
    assert nz[0] == s && nz[1..] == NonZero(slots[1..]);
    var list' := list + [NewEntry(s, age, modifier, t, interp)];
    MergeSlotsIsMerged(list', slots[1..], nodeIndex + 1, age, modifier, t, interp);
    assert !Conflicts(list', nz[1..], nodeIndex + 1, t);
    assert !Conflicts(list, nz, nodeIndex, t);
    AppendMerged(list, nz, nodeIndex, age, modifier, t, interp);
  }

  lemma {:induction false} MergeUpdateCase(list: seq<MigrationRateData>, slots: seq<Slot>, nodeIndex: nat, age: real,
                                           modifier: real, t: MigrationType, interp: InterpolationType)
    requires AllReadable(list) && nodeIndex < |list|
    requires slots != [] && slots[0].id != 0
    requires list[nodeIndex].toNode == slots[0].id && list[nodeIndex].migType == t
    ensures MergesAsSpecified(list, slots, nodeIndex, age, modifier, t, interp)
    decreases |slots|, 0
  {
    var nz := NonZero(slots);
    var s := slots[0];
    assert nz[0] == s && nz[1..] == NonZero(slots[1..]);
    var list' := list[nodeIndex := AddRate(list[nodeIndex], age, ScaledRate(s, modifier))];
    MergeSlotsIsMerged(list', slots[1..], nodeIndex + 1, age, modifier, t, interp);
    ConflictsShift(list, list', nz, nodeIndex, t);
    UpdateMerged(list, nz, nodeIndex, age, modifier, t, interp);
  }

  /**
   * Without a conflict, the k-th non-padding slot of the block ends up as the
   * destination at nodeIndex + k, with the slot's node id and the file's
   * migration type: every age block lists destinations in the same order.
   */
  lemma MergedDestinations(list: seq<MigrationRateData>, nz: seq<Slot>, nodeIndex: nat, age: real, modifier: real,
                           t: MigrationType, interp: InterpolationType)
    requires AllReadable(list) && nodeIndex <= |list|
    requires !Conflicts(list, nz, nodeIndex, t)
    ensures var m := Merged(list, nz, nodeIndex, age, modifier, t, interp);
            forall k :: 0 <= k < |nz| ==> m[nodeIndex + k].toNode == nz[k].id && m[nodeIndex + k].migType == t
  {
    var m := Merged(list, nz, nodeIndex, age, modifier, t, interp);
    forall k | 0 <= k < |nz| ensures m[nodeIndex + k].toNode == nz[k].id && m[nodeIndex + k].migType == t {
      var j := nodeIndex + k;
      assert nz[j - nodeIndex] == nz[k];
      if j < |list| {
        assert !ConflictAt(list, nz, nodeIndex, t, k);
        assert m[j] == AddRate(list[j], age, ScaledRate(nz[k], modifier));
      } else {
        assert m[j] == NewEntry(nz[k], age, modifier, t, interp);
      }
    }
  }

  /** The destinations one block creates when it is merged past the end of a list. */
  function NewEntries(nz: seq<Slot>, age: real, modifier: real, t: MigrationType, interp: InterpolationType): seq<MigrationRateData>
  {
    seq(|nz|, k requires 0 <= k < |nz| => NewEntry(nz[k], age, modifier, t, interp))
  }

  /**
   * The first block of a node read into a gender's list appends one new
   * destination per non-padding slot, in file order, with the slot's rate
   * times the file's multiplier as its only sample.
   */
  lemma FirstBlockAppends(list: seq<MigrationRateData>, slots: seq<Slot>, age: real,
                          modifier: real, t: MigrationType, interp: InterpolationType)
    requires AllReadable(list)
    ensures MergeSlots(list, slots, |list|, age, modifier, t, interp)
         == Ok(list + NewEntries(NonZero(slots), age, modifier, t, interp))
    ensures forall k :: 0 <= k < |NonZero(slots)| ==>
      NewEntries(NonZero(slots), age, modifier, t, interp)[k].samples == [Sample(age, ScaledRate(NonZero(slots)[k], modifier))]
  {
    var nz := NonZero(slots);
    MergeSlotsIsMerged(list, slots, |list|, age, modifier, t, interp);
    assert !Conflicts(list, nz, |list|, t);
    assert Merged(list, nz, |list|, age, modifier, t, interp) == list + NewEntries(nz, age, modifier, t, interp);
    NewEntriesSingleSample(nz, age, modifier, t, interp);
  }

  /** Each new entry holds the one sample of its slot at this age. */
  lemma NewEntriesSingleSample(nz: seq<Slot>, age: real, modifier: real, t: MigrationType, interp: InterpolationType)
    ensures forall k :: 0 <= k < |nz| ==>
      NewEntries(nz, age, modifier, t, interp)[k].samples == [Sample(age, ScaledRate(nz[k], modifier))]
  {
    forall k | 0 <= k < |nz| ensures NewEntries(nz, age, modifier, t, interp)[k].samples == [Sample(age, ScaledRate(nz[k], modifier))] {
      var e := NewEntry(nz[k], age, modifier, t, interp);
      assert !HasAge([], age);
      assert |e.samples| == 1 && Sample(age, ScaledRate(nz[k], modifier)) in e.samples;
    }
  }

  /**
   * With one chunk for both genders, two gender lists that start equal are
   * filled from the same data and end equal: the female list is a copy of
   * the male one.
   */
  lemma SharedChunkFillsBothGenders(l: Layout, file: BinaryFile, modifier: real, t: MigrationType,
                                    nodeOffset: nat, data: seq<seq<MigrationRateData>>)
    requires TwoReadable(data) && data[0] == data[1]
    requires GenderDataChunks(l.genderDataType) == 1
    ensures var r := MergeGenders(data, l, file, modifier, t, nodeOffset, 0);
            r.Ok? ==> r.value[0] == r.value[1]
  {
    var r0 := MergeAges(data[0], l, file, modifier, t, 0, nodeOffset, |data[0]|, 0);
    if r0.Ok? {
      var data' := data[0 := r0.value];
      assert GenderFileIndex(1, 1) == 0;
      var r1 := MergeAges(data'[1], l, file, modifier, t, 0, nodeOffset, |data'[1]|, 0);
      assert r1 == r0;
    }
  }

  /**
   * The block for gender chunk g and age index a of a node whose offset is
   * inside one age chunk lies inside that (g, a) chunk and inside the file.
   */
  lemma ReadPositionInside(l: Layout, g: nat, a: nat, nodeOffset: nat)
    requires l.genderDataSize == |l.agesYears| * l.ageDataSize
    requires g < GenderDataChunks(l.genderDataType) && a < |l.agesYears| && nodeOffset < l.ageDataSize
    ensures g * l.genderDataSize + a * l.ageDataSize <= ReadPosition(l, g, a, nodeOffset)
                                                     < g * l.genderDataSize + (a + 1) * l.ageDataSize
    ensures ReadPosition(l, g, a, nodeOffset) < ExpectedSize(l)
  {
    var c, n, s, gs := GenderDataChunks(l.genderDataType), |l.agesYears|, l.ageDataSize, l.genderDataSize;
    assert (a + 1) * s <= n * s by {
      assert a + 1 <= n;
    }
    assert (g + 1) * gs <= c * gs by {
      assert g + 1 <= c;
    }
    assert g * gs + (a + 1) * s <= g * gs + gs == (g + 1) * gs;
  }

  /**
   * The offsets are only checked against the whole expected size, not
   * against one age section. One node with offset 12, one destination and
   * ages 10 and 125: the sections are 12 bytes, the file 24, and the
   * offset is accepted.
   */
  lemma {:induction false} OffsetCheckAdmitsOtherSection()
    ensures ParseMetadata(Metadata("mig", Some(1), Known(LocalMigration), Known(SameForBothGenders),
                                   AgesArray([10.0, 125.0]), Known(LinearInterpolation), 1, EncodeOffsets([(7, 12)])),
                          "mig", LocalMigration, 1)
         == Ok(Layout(1, SameForBothGenders, LinearInterpolation, [10.0, 125.0], map[7 := 12], 12, 24))
  {
    var md := Metadata("mig", Some(1), Known(LocalMigration), Known(SameForBothGenders),
                       AgesArray([10.0, 125.0]), Known(LinearInterpolation), 1, EncodeOffsets([(7, 12)]));
    ExampleOffsetsDecode(md);
    ExampleLayoutAfterAges(md);
    ExampleHeaderPasses(md);
  }

  lemma ExampleHeaderPasses(md: Metadata)
    requires md == Metadata("mig", Some(1), Known(LocalMigration), Known(SameForBothGenders),
                            AgesArray([10.0, 125.0]), Known(LinearInterpolation), 1, EncodeOffsets([(7, 12)]))
    ensures ParseMetadata(md, "mig", LocalMigration, 1) == LayoutAfterAges(md, 1, [10.0, 125.0])
  {
    ExampleAgesAccepted();
    assert HeaderError(md, "mig", LocalMigration).None?;
  }

  lemma ExampleLayoutAfterAges(md: Metadata)
    requires |md.nodeOffsets| / RECORD_WIDTH == md.nodeCount
    requires md.nodeCount >= 0 && DecodeOffsets(md.nodeOffsets, md.nodeCount) == map[7 := 12]
    requires md.genderDataType == Known(SameForBothGenders) && md.interpolationType == Known(LinearInterpolation)
    ensures LayoutAfterAges(md, 1, [10.0, 125.0])
         == Ok(Layout(1, SameForBothGenders, LinearInterpolation, [10.0, 125.0], map[7 := 12], 12, 24))
  {
    var l := MakeLayout(md, 1, [10.0, 125.0], DecodeOffsets(md.nodeOffsets, md.nodeCount));
    ExampleSections(md, l);
    assert OffsetsInside(l.offsets, ExpectedSize(l)) by {
      assert forall id :: id in l.offsets ==> id == 7;
    }
    assert LayoutAfterAges(md, 1, [10.0, 125.0]) == Ok(l);
  }

  lemma ExampleSections(md: Metadata, l: Layout)
    requires md.genderDataType == Known(SameForBothGenders) && md.interpolationType == Known(LinearInterpolation)
    requires l == MakeLayout(md, 1, [10.0, 125.0], map[7 := 12])
    ensures l == Layout(1, SameForBothGenders, LinearInterpolation, [10.0, 125.0], map[7 := 12], 12, 24)
  {
    assert |l.offsets| == 1;
  }

  lemma ExampleOffsetsDecode(md: Metadata)
    requires md.nodeOffsets == EncodeOffsets([(7, 12)]) && md.nodeCount == 1
    ensures |md.nodeOffsets| / RECORD_WIDTH == md.nodeCount
    ensures DecodeOffsets(md.nodeOffsets, md.nodeCount) == map[7 := 12]
  {
    EncodedOffsetsDecode(md, [(7, 12)]);
    assert [(7, 12)][..0] == [];
  }

  lemma ExampleAgesAccepted()
    ensures ParsedAges(AgesArray([10.0, 125.0])) == Ok([10.0, 125.0])
  {
    assert AgeOk([10.0, 125.0], 0) && AgeOk([10.0, 125.0], 1);
  }

  /**
   * In that accepted layout the node's offset is beyond its age section:
   * its block for age 10 is read from the section of age 125, and its block
   * for age 125 from the end of the file, where no read of a file of the
   * expected size succeeds.
   */
  lemma AcceptedOffsetLeavesSection(f: BinaryFile)
    requires f.size == 24
    ensures var l := Layout(1, SameForBothGenders, LinearInterpolation, [10.0, 125.0], map[7 := 12], 12, 24);
            && ExpectedSize(l) == f.size
            && ReadPosition(l, 0, 0, 12) == l.ageDataSize
            && ReadPosition(l, 0, 1, 12) == ExpectedSize(l)
            && ReadBlock(f, ReadPosition(l, 0, 1, 12), 1).None?
  {
    var l := Layout(1, SameForBothGenders, LinearInterpolation, [10.0, 125.0], map[7 := 12], 12, 24);
    assert ReadPosition(l, 0, 1, 12) == 24;
  }

  /** All destinations hold exactly one sample, as FixedRate initialisation requires. */
  predicate SingleSampled(data: seq<seq<MigrationRateData>>)
  {
    forall i :: 0 <= i < |data| ==> OneSampleEach(data[i])
  }

  predicate OneSampleEach(list: seq<MigrationRateData>)
  {
    forall j :: 0 <= j < |list| ==> list[j].NumRates() == 1
  }

  lemma OneAgeAppends(list: seq<MigrationRateData>, l: Layout, file: BinaryFile, modifier: real, t: MigrationType,
                      g: nat, nodeOffset: nat)
    requires AllReadable(list) && |l.agesYears| == 1 && OneSampleEach(list)
    ensures var r := MergeAges(list, l, file, modifier, t, g, nodeOffset, |list|, 0);
            r.Ok? ==> OneSampleEach(r.value)
  {
    var r := MergeAges(list, l, file, modifier, t, g, nodeOffset, |list|, 0);
    var block := ReadBlock(file, ReadPosition(l, g, 0, nodeOffset), l.destinationsPerNode);
    if block.Some? {
      FirstBlockAppends(list, block.value, l.agesYears[0], modifier, t, l.interpolationType);
      var next := list + NewEntries(NonZero(block.value), l.agesYears[0], modifier, t, l.interpolationType);
      assert r == MergeAges(next, l, file, modifier, t, g, nodeOffset, |list|, 1);
      assert r == Ok(next);
      forall j | 0 <= j < |next| ensures next[j].NumRates() == 1 {
        if j >= |list| {
          assert next[j] == NewEntries(NonZero(block.value), l.agesYears[0], modifier, t, l.interpolationType)[j - |list|];
        }
      }
    }
  }

  /**
   * A read that reports fixed-rate keeps every destination single-sampled:
   * the node's single age block appends destinations with one sample each
   * and leaves the existing ones alone.
   */
  lemma FixedReadKeepsSingleSamples(l: Layout, file: BinaryFile, modifier: real, t: MigrationType, enabled: bool,
                                    fromNode: NodeId, data: seq<seq<MigrationRateData>>)
    requires RateDataShape(data) && SingleSampled(data)
    requires ReadDataSpec(l, file, modifier, t, enabled, fromNode, data).Ok?
    requires ReadDataSpec(l, file, modifier, t, enabled, fromNode, data).value.0
    ensures SingleSampled(ReadDataSpec(l, file, modifier, t, enabled, fromNode, data).value.1)
  {
    if enabled && fromNode in l.offsets {
      var initial := if |data| != 2 then [[], []] else data;
      assert SingleSampled(initial);
      var off := l.offsets[fromNode];
      var merged := MergeGenders(initial, l, file, modifier, t, off, 0);
      assert merged.Ok? && IsFixedRate(l);
      assert GenderFileIndex(GenderDataChunks(l.genderDataType), 0) == 0;
      assert GenderFileIndex(GenderDataChunks(l.genderDataType), 1) == 0;
      var r0 := MergeAges(initial[0], l, file, modifier, t, 0, off, |initial[0]|, 0);
      assert r0.Ok?;
      var d1 := initial[0 := r0.value];
      assert merged == MergeGenders(d1, l, file, modifier, t, off, 1);
      var r1 := MergeAges(d1[1], l, file, modifier, t, 0, off, |d1[1]|, 0);
      assert r1.Ok?;
      var d2 := d1[1 := r1.value];
      assert merged == MergeGenders(d2, l, file, modifier, t, off, 2) == Ok(d2);
      assert OneSampleEach(initial[0]) && OneSampleEach(initial[1]);
      OneAgeAppends(initial[0], l, file, modifier, t, 0, off);
      OneAgeAppends(d1[1], l, file, modifier, t, 0, off);
      assert d2 == [r0.value, r1.value];
    }
  }

  /** The rate data only grows: every list keeps at least the destinations it had. */
  lemma ReadDataNeverShrinks(l: Layout, file: BinaryFile, modifier: real, t: MigrationType, enabled: bool,
                             fromNode: NodeId, data: seq<seq<MigrationRateData>>)
    requires RateDataShape(data)
    requires ReadDataSpec(l, file, modifier, t, enabled, fromNode, data).Ok?
    ensures var d := ReadDataSpec(l, file, modifier, t, enabled, fromNode, data).value.1;
            |d| >= |data| && forall i :: 0 <= i < |data| ==> |d[i]| >= |data[i]|
  {
    if enabled && fromNode in l.offsets && |data| == 2 {
      var off := l.offsets[fromNode];
      var r0 := MergeAges(data[0], l, file, modifier, t, GenderFileIndex(GenderDataChunks(l.genderDataType), 0), off, |data[0]|, 0);
      var d1 := data[0 := r0.value];
      var r1 := MergeAges(d1[1], l, file, modifier, t, GenderFileIndex(GenderDataChunks(l.genderDataType), 1), off, |d1[1]|, 0);
      assert MergeGenders(data, l, file, modifier, t, off, 0) == Ok(d1[1 := r1.value]);
    }
  }

  // ------------------------------------------------------------------
  // The file object
  // ------------------------------------------------------------------

  class MigrationInfoFile {
    const migrationType: MigrationType
    const isEnabled: bool
    const filename: string
    /** The migration tuning knob every rate of the file is multiplied by. */
    const modifier: real

    var destinationsPerNode: nat
    var genderDataType: GenderDataType
    var interpolationType: InterpolationType
    var agesYears: seq<real>
    var genderDataSize: nat
    var ageDataSize: nat
    var offsets: map<NodeId, nat>
    /** The opened binary data file. */
    var stream: BinaryFile

    /** The fields the metadata sets, as one value. */
    function CurrentLayout(): Layout
      reads this
    {
      Layout(destinationsPerNode, genderDataType, interpolationType, agesYears, offsets, ageDataSize, genderDataSize)
    }

    /** A file before Initialize: the default destination count and an empty layout. */
    ghost predicate Unloaded()
      reads this
    {
      0 < destinationsPerNode <= MAX_DESTINATIONS && agesYears == [] && offsets == map[]
    }

    constructor (migType: MigrationType, defaultDestinationsPerNode: nat, enable: bool, migFilename: string, migModifier: real)
      requires 0 < defaultDestinationsPerNode <= MAX_DESTINATIONS
      ensures Unloaded()
      ensures migrationType == migType && isEnabled == enable && filename == migFilename && modifier == migModifier
      ensures destinationsPerNode == defaultDestinationsPerNode
      ensures genderDataType == SameForBothGenders && interpolationType == LinearInterpolation
      ensures genderDataSize == 0 && ageDataSize == 0 && stream == CLOSED_FILE
    {
      migrationType, isEnabled, filename, modifier := migType, enable, migFilename, migModifier;
      destinationsPerNode := defaultDestinationsPerNode;
      genderDataType, interpolationType := SameForBothGenders, LinearInterpolation;
      agesYears, offsets := [], map[];
      genderDataSize, ageDataSize := 0, 0;
      stream := CLOSED_FILE;
    }

    /**
     * ParseMetadataForFile: validates the metadata, sets the layout fields
     * and returns the expected size of the binary file.
     */
    method ParseMetadataForFile(md: Metadata, idReference: string) returns (r: Result<nat, FileError>)
      requires Unloaded()
      modifies this
      ensures stream == old(stream)
      ensures match ParseMetadata(md, idReference, migrationType, old(destinationsPerNode))
        case Ok(l) => r == Ok(ExpectedSize(l)) && CurrentLayout() == l
        case Err(e) => r == Err(e)
    {
      var error := ReadHeader(md, idReference);
      if error.Some? {
        return Err(error.value);
      }
      if md.agesYears.AgesNotArray? {
        return Err(AgesNotAnArray);
      } else if md.agesYears.AgesArray? {
        var bad := ReadAges(md.agesYears.ages);
        if bad.Some? {
          return Err(InvalidAge(bad.value));
        }
        assert agesYears == md.agesYears.ages;
      } else {
        agesYears := agesYears + [MAX_HUMAN_AGE];
        assert agesYears == [MAX_HUMAN_AGE];
      }
      assert ParsedAges(md.agesYears) == Ok(agesYears);
      r := ReadLayout(md);
    }

    /** The part of ParseMetadataForFile after the ages: interpolation type, offsets and sizes. */
    method ReadLayout(md: Metadata) returns (r: Result<nat, FileError>)
      requires offsets == map[]
      requires genderDataType == if md.genderDataType.Known? then md.genderDataType.value else SameForBothGenders
      modifies this`interpolationType, this`offsets, this`ageDataSize, this`genderDataSize
      ensures match LayoutAfterAges(md, destinationsPerNode, agesYears)
        case Ok(l) => r == Ok(ExpectedSize(l)) && CurrentLayout() == l
        case Err(e) => r == Err(e)
    {
      interpolationType := LinearInterpolation;
      if md.interpolationType.Unrecognised? {
        return Err(InvalidEnumValue("InterpolationType"));
      } else if md.interpolationType.Known? {
        interpolationType := md.interpolationType.value;
      }
      if |md.nodeOffsets| / RECORD_WIDTH != md.nodeCount {
        return Err(NodeCountMismatch);
      }
      WholeRecords(|md.nodeOffsets|, md.nodeCount);
      var layout := StoreLayout(md);
      assert LayoutAfterAges(md, destinationsPerNode, agesYears)
          == if OffsetsInside(layout.offsets, ExpectedSize(layout)) then Ok(layout) else Err(OffsetBeyondFile);
      var expectedSize := ExpectedSize(layout);
      var inside := OffsetsFit(expectedSize);
      if !inside {
        return Err(OffsetBeyondFile);
      }
      return Ok(expectedSize);
    }

    /** Lines 733-737: the offsets are read and the section sizes follow from them. */
    method StoreLayout(md: Metadata) returns (layout: Layout)
      requires 0 <= md.nodeCount && md.nodeCount * RECORD_WIDTH <= |md.nodeOffsets|
      requires offsets == map[]
      requires genderDataType == if md.genderDataType.Known? then md.genderDataType.value else SameForBothGenders
      requires interpolationType == if md.interpolationType.Known? then md.interpolationType.value else LinearInterpolation
      modifies this`offsets, this`ageDataSize, this`genderDataSize
      ensures layout == MakeLayout(md, destinationsPerNode, agesYears, DecodeOffsets(md.nodeOffsets, md.nodeCount))
      ensures CurrentLayout() == layout
    {
      ReadOffsets(md.nodeOffsets, md.nodeCount);
      layout := MakeLayout(md, destinationsPerNode, agesYears, offsets);
      ageDataSize, genderDataSize := layout.ageDataSize, layout.genderDataSize;
    }

    /**
     * The keys read before the ages: the id reference (compared lower-cased),
     * the destination count, the migration type and the gender data type.
     */
    method ReadHeader(md: Metadata, idReference: string) returns (error: Option<FileError>)
      modifies this`destinationsPerNode, this`genderDataType
      ensures error == HeaderError(md, idReference, migrationType)
      ensures error.None? ==>
        destinationsPerNode == (if md.datavalueCount.Some? then md.datavalueCount.value as nat else old(destinationsPerNode)) &&
        genderDataType == (if md.genderDataType.Known? then md.genderDataType.value else SameForBothGenders)
    {
      if ToLower(md.idReference) != ToLower(idReference) {
        return Some(IdReferenceMismatch);
      }
      if md.datavalueCount.Some? {
        if !(0 < md.datavalueCount.value <= MAX_DESTINATIONS) {
          return Some(DatavalueCountOutOfRange(md.datavalueCount.value));
        }
        destinationsPerNode := md.datavalueCount.value;
      }
      if md.migrationType.Unrecognised? {
        return Some(InvalidEnumValue("MigrationType"));
      } else if md.migrationType.Known? && md.migrationType.value != migrationType {
        return Some(MigrationTypeMismatch);
      }
      genderDataType := SameForBothGenders;
      if md.genderDataType.Unrecognised? {
        return Some(InvalidEnumValue("GenderDataType"));
      } else if md.genderDataType.Known? {
        genderDataType := md.genderDataType.value;
      }
      return None;
    }

    /**
     * The ages loop of ParseMetadataForFile: appends each age that is in
     * [0, MAX_HUMAN_AGE] and not below its predecessor, and stops at the
     * first one that is not.
     */
    method ReadAges(ages: seq<real>) returns (bad: Option<nat>)
      requires agesYears == []
      modifies this`agesYears
      ensures bad == FirstBadAge(ages, 0)
      ensures bad.None? ==> agesYears == ages
    {
      var prev := 0.0;
      var i := 0;
      while i < |ages|
        invariant 0 <= i <= |ages|
        invariant agesYears == ages[..i]
        invariant prev == if i == 0 then 0.0 else ages[i - 1]
        invariant forall j :: 0 <= j < i ==> AgeOk(ages, j)
      {
        var age := ages[i];
        if age < 0.0 || MAX_HUMAN_AGE < age || age < prev {
          assert !AgeOk(ages, i);
          var first := FirstBadAge(ages, 0);
          assert first == Some(i);
          return Some(i);
        }
        agesYears := agesYears + [age];
        prev := age;
        i := i + 1;
      }
      assert agesYears == ages;
      return None;
    }

    /** The node-offsets loop: one 16-character record per node, later records overriding earlier ones. */
    method ReadOffsets(text: string, count: int)
      requires 0 <= count && count * RECORD_WIDTH <= |text|
      requires offsets == map[]
      modifies this`offsets
      ensures offsets == DecodeOffsets(text, count)
    {
      var n := 0;
      while n < count
        invariant 0 <= n <= count
        invariant offsets == DecodeOffsets(text, n)
      {
        RecordInside(n, count, |text|);
        var (nodeId, offset) := DecodeRecord(text, n);
        DecodeOffsetsStep(text, n);
        offsets := offsets[nodeId := offset];
        n := n + 1;
      }
    }

    /** The bound check: every declared offset lies before the end of the expected file. */
    method OffsetsFit(expectedSize: nat) returns (inside: bool)
      ensures inside == OffsetsInside(offsets, expectedSize)
    {
      var unchecked := offsets.Keys;
      while unchecked != {}
        invariant unchecked <= offsets.Keys
        invariant forall id :: id in offsets && id !in unchecked ==> offsets[id] < expectedSize
        decreases unchecked
      {
        var id :| id in unchecked;
        if offsets[id] >= expectedSize {
          return false;
        }
        unchecked := unchecked - {id};
      }
      return true;
    }

    /** OpenMigrationFile: keeps the data file when it has the expected size. */
    method OpenMigrationFile(file: Option<BinaryFile>, expectedSize: nat) returns (error: Option<FileError>)
      modifies this`stream
      ensures error == OpenCheck(file, expectedSize)
      ensures error.None? ==> stream == file.value
    {
      if file.None? {
        return Some(FileNotFound);
      }
      if file.value.size != expectedSize {
        return Some(WrongFileSize);
      }
      stream := file.value;
      return None;
    }

    /**
     * Initialize: a disabled file stays unloaded; an enabled one needs a
     * filename, valid metadata and a data file of the expected size.
     */
    method Initialize(idReference: string, md: Metadata, file: Option<BinaryFile>) returns (error: Option<FileError>)
      requires Unloaded()
      modifies this
      ensures !isEnabled ==> error.None? && unchanged(this)
      ensures isEnabled ==>
        match Load(md, idReference, migrationType, old(destinationsPerNode), filename, file)
        case Err(e) => error == Some(e)
        case Ok((l, f)) => error.None? && CurrentLayout() == l && stream == f
    {
      if !isEnabled {
        return None;
      }
      if filename == [] {
        return Some(FilenameEmpty);
      }
      var expected := ParseMetadataForFile(md, idReference);
      if expected.Err? {
        return Some(expected.error);
      }
      error := OpenMigrationFile(file, expected.value);
    }

    /** One age block of the node merged into a gender's list, starting at position nodeIndex. */
    method MergeBlock(list: seq<MigrationRateData>, slots: seq<Slot>, start: nat, ageYears: real)
      returns (r: Result<seq<MigrationRateData>, FileError>)
      requires AllReadable(list) && start <= |list|
      ensures r == MergeSlots(list, slots, start, ageYears, modifier, migrationType, interpolationType)
    {
      var current := list;
      var nodeIndex: nat := start;
      var i := 0;
      while i < |slots|
        invariant 0 <= i <= |slots| && AllReadable(current) && nodeIndex <= |current|
        invariant MergeSlots(list, slots, start, ageYears, modifier, migrationType, interpolationType)
               == MergeSlots(current, slots[i..], nodeIndex, ageYears, modifier, migrationType, interpolationType)
      {
        assert slots[i..][1..] == slots[i + 1..];
        if slots[i].id > 0 {
          var toNode := slots[i].id;
          if |current| <= nodeIndex {
            AppendKeepsReadable(current, slots[i], ageYears, modifier, migrationType, interpolationType);
            current := current + [NewEntry(slots[i], ageYears, modifier, migrationType, interpolationType)];
          } else if current[nodeIndex].toNode != toNode || current[nodeIndex].migType != migrationType {
            return Err(InconsistentDestinations);
          } else {
            AddKeepsReadable(current, nodeIndex, ageYears, ScaledRate(slots[i], modifier));
            current := current[nodeIndex := AddRate(current[nodeIndex], ageYears, ScaledRate(slots[i], modifier))];
          }
          nodeIndex := nodeIndex + 1;
        }
        i := i + 1;
      }
      assert slots[i..] == [];
      return Ok(current);
    }

    /** Every age block of gender chunk g of the node merged into a gender's list. */
    method MergeNodeAges(list: seq<MigrationRateData>, g: nat, nodeOffset: nat)
      returns (r: Result<seq<MigrationRateData>, FileError>)
      requires AllReadable(list)
      ensures r == MergeAges(list, CurrentLayout(), stream, modifier, migrationType, g, nodeOffset, |list|, 0)
    {
      var l := CurrentLayout();
      var initialNodeDataSize: nat := |list|;
      var current := list;
      var ja := 0;
      while ja < |agesYears|
        invariant 0 <= ja <= |agesYears| && AllReadable(current) && initialNodeDataSize <= |current|
        invariant MergeAges(list, l, stream, modifier, migrationType, g, nodeOffset, initialNodeDataSize, 0)
               == MergeAges(current, l, stream, modifier, migrationType, g, nodeOffset, initialNodeDataSize, ja)
      {
        var position := g * genderDataSize + ja * ageDataSize + nodeOffset;
        var block := ReadBlock(stream, position, destinationsPerNode);
        if block.None? {
          return Err(ReadFailed);
        }
        var next := MergeBlock(current, block.value, initialNodeDataSize, agesYears[ja]);
        if next.Err? {
          return Err(next.error);
        }
        current := next.value;
        ja := ja + 1;
      }
      return Ok(current);
    }

    /**
     * ReadData: merges the node's records into the rate data (one list per
     * gender) and reports whether they are fixed-rate.
     */
    method ReadData(fromNode: NodeId, rateData: seq<seq<MigrationRateData>>)
      returns (r: Result<(bool, seq<seq<MigrationRateData>>), FileError>)
      requires RateDataShape(rateData)
      ensures r == ReadDataSpec(CurrentLayout(), stream, modifier, migrationType, isEnabled, fromNode, rateData)
    {
      var data := rateData;
      if !isEnabled || fromNode !in offsets {
        return Ok((true, data));
      }
      if |data| != 2 {
        data := [[], []];
      }
      var l := CurrentLayout();
      var data0 := data;
      var nodeOffset := offsets[fromNode];
      var numGenderDataChunks := GenderDataChunks(genderDataType);
      var isFixedRate := numGenderDataChunks == 1 && |agesYears| == 1 && agesYears[0] == MAX_HUMAN_AGE;
      var genderFileIndex := 0;
      var ig := 0;
      while ig < 2
        invariant 0 <= ig <= 2 && TwoReadable(data)
        invariant ig < 2 ==> genderFileIndex == ig
        invariant MergeGenders(data0, l, stream, modifier, migrationType, nodeOffset, 0)
               == MergeGenders(data, l, stream, modifier, migrationType, nodeOffset, ig)
      {
        if numGenderDataChunks == 1 && ig == 1 {
          genderFileIndex := 0;
        }
        assert genderFileIndex == GenderFileIndex(numGenderDataChunks, ig);
        var list := MergeNodeAges(data[ig], genderFileIndex, nodeOffset);
        if list.Err? {
          return Err(list.error);
        }
        data := data[ig := list.value];
        genderFileIndex := genderFileIndex + 1;
        ig := ig + 1;
      }
      assert isFixedRate == IsFixedRate(l);
      return Ok((isFixedRate, data));
    }
  }
}
