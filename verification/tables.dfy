/** The two lookup tables built before any recording is read and the queries
    made on them: the region table from the annotation rows
    (`read_annotations`), the participant/version table
    (`get_stimulus_version_read_by_participant`) and the region selection
    for one stimulus version (`get_region_details`).
 */
module Tables {
  import opened Outcomes
  import opened Seqs
  import opened Text
  import opened Aoi

  /** One annotation row, its JSON blobs already decoded: the image file name,
      the rectangle `{x, y, width, height}` and the "region type" attribute. */
  datatype AnnotationRow = AnnotationRow(
    filename: string,
    x: real, y: real,
    width: real, height: real,
    regionType: string)

  /** Python's `int()` on a number: truncation toward zero. */
  function Trunc(v: real): (n: int)
    ensures 0.0 <= v ==> n as real <= v < n as real + 1.0
    ensures v < 0.0 ==> n as real - 1.0 < v <= n as real
  {
    if v >= 0.0 then v.Floor else -((-v).Floor)
  }

  /** Reads the stimulus id and the version token from an annotation file
      name `Q<id>_<version>...png`: the text before ".png" is cut at every
      "_", every "Q" is deleted from the first piece, which must then be an
      integer, and the second piece is the version; further pieces are
      ignored. A stem without "_" has no second piece (IndexError); a first
      piece that is no integer is a ValueError. */
  function ParseAnnotationName(filename: string): (r: Result<(int, string)>)
    ensures r.Failure? ==> r.error == MalformedAnnotationName
    ensures var stem := BeforeFirst(filename, ".png");
            r.Success? <==> '_' in stem && ParseInt(RemoveAll(Split(stem, '_')[0], "Q")).Some?
    ensures r.Success? ==>
              var parts := Split(BeforeFirst(filename, ".png"), '_');
              && ParseInt(RemoveAll(parts[0], "Q")) == Some(r.value.0)
              && r.value.1 == parts[1]
              && '_' !in r.value.1
  {
    var parts := Split(BeforeFirst(filename, ".png"), '_');
    if |parts| < 2 then Failure(MalformedAnnotationName)
    else
      match ParseInt(RemoveAll(parts[0], "Q"))
      case None => Failure(MalformedAnnotationName)
      case Some(id) => Success((id, parts[1]))
  }

  /** `Q<id>_<v><tail>.png`, with the id after any number of leading zeros
      and any further "_" pieces in `tail`, is read back as `id` and `v`. */
  lemma AnnotationNameRoundTrip(id: int, zeros: nat, v: string, tail: string)
    requires '_' !in v && '.' !in v
    requires '.' !in tail && (tail == [] || tail[0] == '_')
    ensures ParseAnnotationName("Q" + Padded(id, zeros) + "_" + v + tail + ".png") == Success((id, v))
  {
    var first := "Q" + Padded(id, zeros);
    assert "Q" + Padded(id, zeros) + "_" + v + tail + ".png" == first + ['_'] + v + tail + ".png";
    TaggedNumeralPlain("Q", id, zeros);
    StemPieces(first, v, tail, '_', ".png");
    TaggedNumeralReads("Q", id, zeros);
  }

  /** One row of the region table built from an annotation row; the rectangle
      ends at the truncated start plus the truncated size. */
  function RegionOfAnnotation(row: AnnotationRow): (r: Result<Region>)
    ensures r.Success? <==> ParseAnnotationName(row.filename).Success?
    ensures r.Failure? ==> r.error == MalformedAnnotationName
    ensures r.Success? ==>
              && (r.value.stimulusId, r.value.version) == ParseAnnotationName(row.filename).value
              && r.value.startX == row.x && r.value.startY == row.y
              && r.value.width == row.width && r.value.height == row.height
              && r.value.endX == Trunc(row.x) + Trunc(row.width)
              && r.value.endY == Trunc(row.y) + Trunc(row.height)
              && r.value.regionType == row.regionType
  {
    match ParseAnnotationName(row.filename)
    case Failure(e) => Failure(e)
    case Success((id, version)) =>
      Success(Region(id, version, row.x, row.y, row.width, row.height,
                     Trunc(row.x) + Trunc(row.width), Trunc(row.y) + Trunc(row.height),
                     row.regionType))
  }

  /** The region table from all annotation rows, one region per row in row
      order; one malformed file name aborts the whole load. */
  function LoadAnnotations(rows: seq<AnnotationRow>): (r: Result<seq<Region>>)
    ensures r.Success? <==> forall i :: 0 <= i < |rows| ==> ParseAnnotationName(rows[i].filename).Success?
    ensures r.Success? ==>
              && |r.value| == |rows|
              && forall i :: 0 <= i < |rows| ==> RegionOfAnnotation(rows[i]) == Success(r.value[i])
    ensures r.Failure? ==> r.error == MalformedAnnotationName
  {
    var r := MapOrFail(rows, RegionOfAnnotation);
    assert r.Success? <==> forall i :: 0 <= i < |rows| ==> RegionOfAnnotation(rows[i]).Success?;
    r
  }

  /** A rectangle given in whole pixels with a non-negative size ends at or
      after its start, and its end is exactly start plus size. */
  lemma WholePixelRegionWellFormed(row: AnnotationRow)
    requires ParseAnnotationName(row.filename).Success?
    requires row.x == Trunc(row.x) as real && row.width == Trunc(row.width) as real
    requires row.y == Trunc(row.y) as real && row.height == Trunc(row.height) as real
    requires row.width >= 0.0 && row.height >= 0.0
    ensures var g := RegionOfAnnotation(row).value;
            && g.endX as real == row.x + row.width && g.startX <= g.endX as real
            && g.endY as real == row.y + row.height && g.startY <= g.endY as real
  {
  }

  /** For a non-negative size, the truncated end lies before the start
      exactly when the start is a positive non-whole number and the size is
      below one pixel. A negative start is truncated upwards, so it never
      ends before it begins. */
  lemma RegionEndBeforeStart(row: AnnotationRow)
    requires ParseAnnotationName(row.filename).Success?
    requires row.width >= 0.0 && row.height >= 0.0
    ensures var g := RegionOfAnnotation(row).value;
            && ((g.endX as real) < g.startX <==> 0.0 < row.x && row.x != Trunc(row.x) as real && row.width < 1.0)
            && ((g.endY as real) < g.startY <==> 0.0 < row.y && row.y != Trunc(row.y) as real && row.height < 1.0)
  {
    TruncEndBeforeStart(row.x, row.width);
    TruncEndBeforeStart(row.y, row.height);
  }

  /** One axis of `RegionEndBeforeStart`. */
  lemma TruncEndBeforeStart(start: real, size: real)
    requires size >= 0.0
    ensures ((Trunc(start) + Trunc(size)) as real < start) <==>
            0.0 < start && start != Trunc(start) as real && size < 1.0
  {
    if size >= 1.0 {
      assert Trunc(size) >= 1;
    }
  }

  /** With a positive fractional start and a width below one pixel the
      truncated end lies before the start, so the rectangle contains no
      point. */
  lemma FractionalRegionCanBeEmpty(row: AnnotationRow)
    requires ParseAnnotationName(row.filename).Success?
    requires 0.0 < row.x && row.x != Trunc(row.x) as real
    requires 0.0 <= row.width < 1.0
    ensures var g := RegionOfAnnotation(row).value;
            && (g.endX as real) < g.startX
            && forall x: real, y: real :: !Contains(g, x, y)
  {
    TruncEndBeforeStart(row.x, row.width);
  }

  /** A stem without "_", such as "Q3", has no version piece: the script's
      `file[1]` raises IndexError. */
  lemma StemWithoutVersionFails(stem: string)
    requires '_' !in stem && '.' !in stem
    ensures ParseAnnotationName(stem + ".png").Failure?
  {
    BeforeFirstAppended(stem, ".png");
  }

  /** A first piece whose character after "Q" is no digit or sign, such as
      the "Qx" of "Qx_true.png", is no integer: `int` raises ValueError. */
  lemma LetterIdFails(c: char, v: string)
    requires !IsDigit(c) && c != '+' && c != '-' && c != 'Q' && c != '_' && c != '.'
    requires '.' !in v
    ensures ParseAnnotationName("Q" + [c] + "_" + v + ".png").Failure?
  {
    var first := "Q" + [c];
    assert "Q" + [c] + "_" + v + ".png" == first + ['_'] + v + ".png";
    assert '.' !in first + ['_'] + v by {
      ConcatLacks(first, v, [], '_', '.');
      assert first + ['_'] + v + [] == first + ['_'] + v;
    }
    BeforeFirstAppended(first + ['_'] + v, ".png");
    assert '_' !in first;
    SplitPiece(first, v, '_');
    RemoveAllLeading("Q", [c]);
    RemoveAllAbsent([c], "Q");
  }

  /** The annotation tool's file name for stimulus `id` in version `v`. */
  function AnnotationName(id: int, v: string): string {
    "Q" + Padded(id, 0) + "_" + v + ".png"
  }

  /** The annotation tool's file name is read back as its id and version. */
  lemma AnnotationNameReads(id: int, v: string)
    requires '_' !in v && '.' !in v
    ensures ParseAnnotationName(AnnotationName(id, v)) == Success((id, v))
  {
    AnnotationNameRoundTrip(id, 0, v, "");
    var stem := "Q" + Padded(id, 0) + "_" + v;
    assert stem + "" == stem;
  }

  /** One row of the participant/version table (`participant`, `question`,
      `version` columns of the features file). */
  datatype VersionRow = VersionRow(participant: int, question: int, version: string)

  predicate RowFor(participant: int, stimulus: int, row: VersionRow) {
    row.participant == participant && row.question == stimulus
  }

  /** The row filter of the version lookup. */
  function RowsFor(participant: int, stimulus: int): VersionRow -> bool {
    (row: VersionRow) => RowFor(participant, stimulus, row)
  }

  /** Row `i` is the only row for the participant and stimulus. */
  ghost predicate OnlyRowAt(table: seq<VersionRow>, participant: int, stimulus: int, i: int) {
    && 0 <= i < |table|
    && RowFor(participant, stimulus, table[i])
    && forall j :: 0 <= j < |table| && j != i ==> !RowFor(participant, stimulus, table[j])
  }

  /** The number of selected rows decides between no row, one row and
      several rows for the participant and stimulus. */
  lemma VersionRowCases(table: seq<VersionRow>, participant: int, stimulus: int)
    ensures var rows := Select(table, RowsFor(participant, stimulus));
            && (|rows| == 0 <==> forall i :: 0 <= i < |table| ==> !RowFor(participant, stimulus, table[i]))
            && (|rows| == 1 <==> exists i :: OnlyRowAt(table, participant, stimulus, i))
            && (forall i :: OnlyRowAt(table, participant, stimulus, i) ==> rows == [table[i]])
            && (|rows| >= 2 <==>
                  exists i, j :: 0 <= i < j < |table| &&
                                 RowFor(participant, stimulus, table[i]) && RowFor(participant, stimulus, table[j]))
  {
    var p := RowsFor(participant, stimulus);
    SelectCases(table, p);
    assert forall i :: OnlyRowAt(table, participant, stimulus, i) <==> OnlyMatchAt(table, p, i);
  }

  /** The version of `stimulus` the participant read. pandas `.item()` demands
      exactly one matching row: none and several are both errors, even when
      the several rows agree on the version. */
  function StimulusVersion(table: seq<VersionRow>, participant: int, stimulus: int): (r: Result<string>)
    ensures r.Success? <==> exists i :: OnlyRowAt(table, participant, stimulus, i)
    ensures forall i :: OnlyRowAt(table, participant, stimulus, i) ==> r == Success(table[i].version)
    ensures r == Failure(VersionNotFound) <==>
              forall i :: 0 <= i < |table| ==> !RowFor(participant, stimulus, table[i])
    ensures r == Failure(AmbiguousVersion) <==>
              exists i, j :: 0 <= i < j < |table| &&
                             RowFor(participant, stimulus, table[i]) && RowFor(participant, stimulus, table[j])
    ensures r.Failure? ==> r.error == VersionNotFound || r.error == AmbiguousVersion
  {
    var rows := Select(table, RowsFor(participant, stimulus));
    VersionRowCases(table, participant, stimulus);
    if |rows| == 0 then Failure(VersionNotFound)
    else if |rows| == 1 then Success(rows[0].version)
    else Failure(AmbiguousVersion)
  }

  /** The region-table version matching a participant-facing version: "fake"
      stimuli are annotated as "false", every other value as "true". */
  function AnnotationVersion(version: string): (v: string)
    ensures v == "false" <==> version == "fake"
    ensures v == "false" || v == "true"
  {
    if version == "fake" then "false" else "true"
  }

  predicate RegionOf(stimulus: int, version: string, g: Region) {
    g.stimulusId == stimulus && g.version == AnnotationVersion(version)
  }

  /** The regions of `stimulus` in `version`: exactly the table rows with that
      stimulus id and translated version, in table order. */
  function RegionDetails(table: seq<Region>, stimulus: int, version: string): (r: seq<Region>)
    ensures forall k :: 0 <= k < |r| ==> r[k] in table && RegionOf(stimulus, version, r[k])
    ensures forall i :: 0 <= i < |table| && RegionOf(stimulus, version, table[i]) ==> table[i] in r
    ensures forall g :: multiset(r)[g] == if RegionOf(stimulus, version, g) then multiset(table)[g] else 0
  {
    SelectCount(table, (g: Region) => RegionOf(stimulus, version, g));
    Select(table, (g: Region) => RegionOf(stimulus, version, g))
  }

  /** Selecting from a table split in two is selecting from each part, in
      order: no row is moved before an earlier one. */
  lemma RegionDetailsInOrder(a: seq<Region>, b: seq<Region>, stimulus: int, version: string)
    ensures RegionDetails(a + b, stimulus, version) ==
            RegionDetails(a, stimulus, version) + RegionDetails(b, stimulus, version)
  {
    SelectAppend(a, b, (g: Region) => RegionOf(stimulus, version, g));
  }

  /** Every version other than "fake" selects the same regions as "true". */
  lemma NonFakeReadsTrue(table: seq<Region>, stimulus: int, version: string)
    requires version != "fake"
    ensures RegionDetails(table, stimulus, version) == RegionDetails(table, stimulus, "true")
  {
    SelectSameMask(table, (g: Region) => RegionOf(stimulus, version, g), (g: Region) => RegionOf(stimulus, "true", g));
  }
}
