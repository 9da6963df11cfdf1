/** The per-recording pipeline (`read_reformatted_eye_movements_data`): skip
    the known-bad files, identify participant and stimulus from the file name,
    resolve the version read and its regions, and label every sample in order.
 */
module Recordings {
  import opened Outcomes
  import opened Seqs
  import opened Text
  import opened Gaze
  import opened Aoi
  import opened Tables

  /** One output row: the sample's gaze, pupil and timestamp values unchanged,
      plus its AOI label (`None` for an unlabelled sample). */
  datatype LabelledSample = LabelledSample(sample: Sample, aoiLabel: Option<string>)

  /** What processing one recording file yields: nothing for a file on the
      ignore list, otherwise the labelled table written out. */
  datatype FileOutcome = Skipped | Written(rows: seq<LabelledSample>)

  /** Reads (participant id, stimulus id) from `P<p>_Stimulus<m>.csv`: the
      text before ".csv" is cut at every "_"; every "P" is deleted from the
      first piece and every "Stimulus" from the second, and both must then be
      integers; further pieces are ignored. A stem without "_" has no second
      piece (IndexError); a piece that is no integer is a ValueError. */
  function ParseRecordingName(filename: string): (r: Result<(int, int)>)
    ensures r.Failure? ==> r.error == MalformedRecordingName
    ensures var stem := BeforeFirst(filename, ".csv");
            r.Success? <==>
              && '_' in stem
              && ParseInt(RemoveAll(Split(stem, '_')[0], "P")).Some?
              && ParseInt(RemoveAll(Split(stem, '_')[1], "Stimulus")).Some?
    ensures r.Success? ==>
              var parts := Split(BeforeFirst(filename, ".csv"), '_');
              && ParseInt(RemoveAll(parts[0], "P")) == Some(r.value.0)
              && ParseInt(RemoveAll(parts[1], "Stimulus")) == Some(r.value.1)
  {
    var parts := Split(BeforeFirst(filename, ".csv"), '_');
    if |parts| < 2 then Failure(MalformedRecordingName)
    else
      match (ParseInt(RemoveAll(parts[0], "P")), ParseInt(RemoveAll(parts[1], "Stimulus")))
      case (Some(participant), Some(stimulus)) => Success((participant, stimulus))
      case _ => Failure(MalformedRecordingName)
  }

  /** `P<p>_Stimulus<m><tail>.csv` is read back as (`p`, `m`), whatever
      leading zeros pad the two numbers (the recorder writes "P03") and
      whatever further "_" pieces `tail` adds. */
  lemma RecordingNameRoundTrip(p: int, pz: nat, m: int, mz: nat, tail: string)
    requires '.' !in tail && (tail == [] || tail[0] == '_')
    ensures ParseRecordingName("P" + Padded(p, pz) + "_Stimulus" + Padded(m, mz) + tail + ".csv") == Success((p, m))
  {
    var first, second := "P" + Padded(p, pz), "Stimulus" + Padded(m, mz);
    var name := "P" + Padded(p, pz) + "_Stimulus" + Padded(m, mz) + tail + ".csv";
    NameLayout(Padded(p, pz), Padded(m, mz), tail);
    TaggedNumeralPlain("P", p, pz);
    TaggedNumeralPlain("Stimulus", m, mz);
    StemPieces(first, second, tail, '_', ".csv");
    TaggedNumeralReads("P", p, pz);
    TaggedNumeralReads("Stimulus", m, mz);
    ReadFromPieces(name, first, second);
  }

  /** The recorder's file name for participant `p` and stimulus `m`: a
      participant number below 10 gets one leading zero ("P03_Stimulus7.csv"). */
  function RecordingName(p: nat, m: nat): string {
    "P" + Padded(p, if p < 10 then 1 else 0) + "_Stimulus" + Padded(m, 0) + ".csv"
  }

  /** The recorder's file name is read back as its participant and stimulus. */
  lemma RecordingNameReads(p: nat, m: nat)
    ensures ParseRecordingName(RecordingName(p, m)) == Success((p, m))
  {
    var pz := if p < 10 then 1 else 0;
    RecordingNameRoundTrip(p, pz, m, 0, "");
    var stem := "P" + Padded(p, pz) + "_Stimulus" + Padded(m, 0);
    assert stem + "" == stem;
  }

  /** The "_" of "_Stimulus" separates the participant piece from the
      stimulus piece. */
  lemma NameLayout(a: string, b: string, tail: string)
    ensures "P" + a + "_Stimulus" + b + tail + ".csv" == ("P" + a) + ['_'] + ("Stimulus" + b) + tail + ".csv"
  {
  }

  /** A name whose stem starts with the pieces `first` and `second` is read
      from those two pieces. */
  lemma ReadFromPieces(filename: string, first: string, second: string)
    requires var parts := Split(BeforeFirst(filename, ".csv"), '_');
             |parts| >= 2 && parts[0] == first && parts[1] == second
    requires ParseInt(RemoveAll(first, "P")).Some? && ParseInt(RemoveAll(second, "Stimulus")).Some?
    ensures ParseRecordingName(filename) ==
            Success((ParseInt(RemoveAll(first, "P")).value, ParseInt(RemoveAll(second, "Stimulus")).value))
  {
  }

  /** Labels one sample against the regions, keeping its values. */
  function LabelSample(regions: seq<Region>, s: Sample): (r: Result<LabelledSample>)
    ensures r.Success? <==> AoiLabel(s, regions).Success?
    ensures r.Success? ==> r.value.sample == s && Success(r.value.aoiLabel) == AoiLabel(s, regions)
    ensures r.Failure? ==> r.error == OverlappingRegions
  {
    match AoiLabel(s, regions)
    case Failure(e) => Failure(e)
    case Success(tag) => Success(LabelledSample(s, tag))
  }

  /** Labels every sample: one output row per input row, in input order, each
      carrying its sample; the first sample in overlapping regions aborts. */
  function LabelSamples(samples: seq<Sample>, regions: seq<Region>): (r: Result<seq<LabelledSample>>)
    ensures r.Success? <==> forall i :: 0 <= i < |samples| ==> AoiLabel(samples[i], regions).Success?
    ensures r.Success? ==>
              && |r.value| == |samples|
              && forall i :: 0 <= i < |samples| ==>
                   r.value[i].sample == samples[i] && AoiLabel(samples[i], regions) == Success(r.value[i].aoiLabel)
    ensures r.Failure? ==> r.error == OverlappingRegions
  {
    var r := MapOrFail(samples, s => LabelSample(regions, s));
    assert r.Success? ==> forall i :: 0 <= i < |samples| ==> LabelSample(regions, samples[i]) == Success(r.value[i]);
    r
  }

  /** The regions a recording's samples are classified against, or the error
      met while identifying them. */
  function RecordingRegions(filename: string, versions: seq<VersionRow>, regionTable: seq<Region>): (r: Result<seq<Region>>)
    ensures r.Success? <==>
              ParseRecordingName(filename).Success? &&
              var (p, m) := ParseRecordingName(filename).value;
              StimulusVersion(versions, p, m).Success?
    ensures r.Success? ==>
              var (p, m) := ParseRecordingName(filename).value;
              var version := StimulusVersion(versions, p, m).value;
              && (forall k :: 0 <= k < |r.value| ==> r.value[k] in regionTable && RegionOf(m, version, r.value[k]))
              && (forall i :: 0 <= i < |regionTable| && RegionOf(m, version, regionTable[i]) ==> regionTable[i] in r.value)
              && (forall g :: multiset(r.value)[g] == if RegionOf(m, version, g) then multiset(regionTable)[g] else 0)
    ensures ParseRecordingName(filename).Failure? ==> r == Failure(MalformedRecordingName)
    ensures ParseRecordingName(filename).Success? ==>
              var (p, m) := ParseRecordingName(filename).value;
              StimulusVersion(versions, p, m).Failure? ==> r == Failure(StimulusVersion(versions, p, m).error)
  {
    match ParseRecordingName(filename)
    case Failure(e) => Failure(e)
    case Success((participant, stimulus)) =>
      match StimulusVersion(versions, participant, stimulus)
      case Failure(e) => Failure(e)
      case Success(version) => Success(RegionDetails(regionTable, stimulus, version))
  }

  /** `read_reformatted_eye_movements_data`: a file on the ignore list yields
      nothing; any other file yields one labelled row per sample, in order,
      each carrying its sample and the label of its gaze point against the
      regions of the stimulus version that participant read. */
  function ProcessRecording(
    filename: string, samples: seq<Sample>, ignore: set<string>,
    versions: seq<VersionRow>, regionTable: seq<Region>): (r: Result<FileOutcome>)
    ensures filename in ignore ==> r == Success(Skipped)
    ensures r == Success(Skipped) ==> filename in ignore
    ensures filename !in ignore && RecordingRegions(filename, versions, regionTable).Failure? ==>
              r == Failure(RecordingRegions(filename, versions, regionTable).error)
    ensures r.Success? && r.value.Written? ==>
              && RecordingRegions(filename, versions, regionTable).Success?
              && |r.value.rows| == |samples|
              && forall i :: 0 <= i < |samples| ==>
                   && r.value.rows[i].sample == samples[i]
                   && AoiLabel(samples[i], RecordingRegions(filename, versions, regionTable).value)
                      == Success(r.value.rows[i].aoiLabel)
    ensures filename !in ignore && RecordingRegions(filename, versions, regionTable).Success? ==>
              (r.Success? <==>
                 forall i :: 0 <= i < |samples| ==>
                   AoiLabel(samples[i], RecordingRegions(filename, versions, regionTable).value).Success?)
  {
    if filename in ignore then Success(Skipped)
    else
      match RecordingRegions(filename, versions, regionTable)
      case Failure(e) => Failure(e)
      case Success(regions) =>
        match LabelSamples(samples, regions)
        case Failure(e) => Failure(e)
        case Success(rows) => Success(Written(rows))
  }
}
