/** Worked examples of the whole pipeline: one annotated text box on
    stimulus 3, participant 7 reading the true version of it, and samples
    inside the box, on screen outside it, and off screen.
 */
module Scenarios {
  import opened Outcomes
  import opened Text
  import opened Gaze
  import opened Aoi
  import opened Tables
  import opened Recordings

  const TextBox: AnnotationRow := AnnotationRow(AnnotationName(3, "true"), 10.0, 20.0, 100.0, 50.0, "text")

  const Assignments: seq<VersionRow> := [VersionRow(7, 3, "true")]

  /** Left eye only, at (50, 30). */
  const InBox: Sample := Sample(50.0, 0.0, 30.0, 0.0, 3.0, 3.1, 1000.0)
  /** Both eyes, averaging to (5, 5). */
  const BesideBox: Sample := Sample(4.0, 6.0, 5.0, 5.0, 3.0, 3.1, 1001.0)
  /** Right eye only, at (2000, 500), beyond the right edge of the screen. */
  const OffScreen: Sample := Sample(-1.0, 2000.0, 0.0, 500.0, 3.0, 3.1, 1002.0)

  /** The text box's rectangle: [10, 110] x [20, 70]. */
  const TextBoxRegion: Region := Region(3, "true", 10.0, 20.0, 100.0, 50.0, 110, 70, "text")

  /** The text box's file name names stimulus 3 in its true version. */
  lemma TextBoxName()
    ensures ParseAnnotationName(TextBox.filename) == Success((3, "true"))
  {
    AnnotationNameReads(3, "true");
  }

  /** The annotation row becomes the text box's region. */
  lemma TextBoxConverts()
    ensures RegionOfAnnotation(TextBox) == Success(TextBoxRegion)
  {
    TextBoxName();
    assert Trunc(10.0) == 10 && Trunc(100.0) == 100 && Trunc(20.0) == 20 && Trunc(50.0) == 50;
  }

  /** A sliver of the text box's stimulus: start 10.5, width 0.25. */
  const Sliver: AnnotationRow := AnnotationRow(TextBox.filename, 10.5, 20.0, 0.25, 5.0, "text")

  /** The sliver ends at int(10.5) + int(0.25) = 10, before its start, and
      contains no point at all. */
  lemma SliverIsEmpty()
    ensures RegionOfAnnotation(Sliver).Success?
    ensures var g := RegionOfAnnotation(Sliver).value;
            g.endX == 10 && forall x: real, y: real :: !Contains(g, x, y)
  {
    TextBoxName();
    assert Trunc(10.5) == 10 && Trunc(0.25) == 0;
    FractionalRegionCanBeEmpty(Sliver);
  }

  /** Loading the one annotation row gives the one-region table. */
  lemma TextBoxLoads()
    ensures LoadAnnotations([TextBox]) == Success([TextBoxRegion])
  {
    TextBoxConverts();
    var r := LoadAnnotations([TextBox]);
    assert RegionOfAnnotation([TextBox][0]) == Success(r.value[0]);
    assert r.value == [TextBoxRegion];
  }

  /** The text box's image name, spelled out. */
  lemma TextBoxNameSpelled()
    ensures AnnotationName(3, "true") == "Q3_true.png"
  {
    SmallNumeral(3, 0);
    assert "Q" + Padded(3, 0) + "_" + "true" + ".png" == "Q3_true.png";
  }

  /** The recorder's name for participant 7 on stimulus 3, spelled out. */
  lemma RecordingNameSpelled()
    ensures RecordingName(7, 3) == "P07_Stimulus3.csv"
  {
    SmallNumeral(7, 1);
    SmallNumeral(3, 0);
    assert "P" + Padded(7, 1) + "_Stimulus" + Padded(3, 0) + ".csv" == "P07_Stimulus3.csv";
  }

  /** The recorder's name for participant 3 on stimulus 7, the first name on
      the ignore list, spelled out. */
  lemma IgnoredNameSpelled()
    ensures RecordingName(3, 7) == "P03_Stimulus7.csv"
  {
    SmallNumeral(3, 1);
    SmallNumeral(7, 0);
    assert "P" + Padded(3, 1) + "_Stimulus" + Padded(7, 0) + ".csv" == "P03_Stimulus7.csv";
  }

  /** A one-digit number after at most one leading zero. */
  lemma SmallNumeral(d: nat, zeros: nat)
    requires d < 10 && zeros <= 1
    ensures Padded(d, zeros) == (if zeros == 1 then "0" else "") + ['0' + d as char]
  {
    if zeros == 1 {
      assert Zeros(1) == "0";
    }
  }

  /** Participant 7's recording of stimulus 3 is classified against the
      text box: participant 7 read the true version. */
  lemma RecordingResolves()
    ensures RecordingRegions(RecordingName(7, 3), Assignments, [TextBoxRegion]) == Success([TextBoxRegion])
  {
    RecordingNameReads(7, 3);
    assert StimulusVersion(Assignments, 7, 3) == Success("true") by {
      assert RowFor(7, 3, Assignments[0]);
    }
    assert RegionOf(3, "true", TextBoxRegion);
    assert RegionDetails([TextBoxRegion], 3, "true") == [TextBoxRegion];
  }

  /** Inside the box, beside it on screen, and off screen. */
  lemma SamplesClassified()
    ensures AoiLabel(InBox, [TextBoxRegion]) == Success(Some("text"))
    ensures AoiLabel(BesideBox, [TextBoxRegion]) == Success(Some("outside"))
    ensures AoiLabel(OffScreen, [TextBoxRegion]) == Success(None)
  {
    assert GazeX(InBox) == 50.0 && GazeY(InBox) == 30.0;
    assert Contains(TextBoxRegion, 50.0, 30.0);
    assert GazeX(BesideBox) == 5.0 && GazeY(BesideBox) == 5.0;
    assert !Contains(TextBoxRegion, 5.0, 5.0);
    assert GazeX(OffScreen) == 2000.0;
  }

  /** The three samples of participant 7's recording of stimulus 3 are
      labelled "text", "outside" and unlabelled, in that order. */
  lemma RecordingLabelled()
    ensures ProcessRecording(RecordingName(7, 3), [InBox, BesideBox, OffScreen], {}, Assignments, [TextBoxRegion]) ==
            Success(Written(LabelledRecording))
  {
    RecordingResolves();
    SamplesLabelled();
  }

  /** The labelled rows of the three samples against the text box. */
  const LabelledRecording: seq<LabelledSample> :=
    [LabelledSample(InBox, Some("text")), LabelledSample(BesideBox, Some("outside")), LabelledSample(OffScreen, None)]

  /** Labelling the three samples against the text box gives one row each. */
  lemma SamplesLabelled()
    ensures LabelSamples([InBox, BesideBox, OffScreen], [TextBoxRegion]) == Success(LabelledRecording)
  {
    SamplesClassified();
    var samples := [InBox, BesideBox, OffScreen];
    var r := LabelSamples(samples, [TextBoxRegion]);
    assert r.Success? by {
      assert forall i :: 0 <= i < |samples| ==> AoiLabel(samples[i], [TextBoxRegion]).Success?;
    }
    assert r.value[0] == LabelledRecording[0];
    assert r.value[1] == LabelledRecording[1];
    assert r.value[2] == LabelledRecording[2];
    assert |r.value| == 3;
    assert r.value == LabelledRecording;
  }

  /** The same recording on the ignore list produces nothing. */
  lemma IgnoredRecordingSkipped(table: seq<Region>)
    ensures ProcessRecording(RecordingName(7, 3), [InBox], {RecordingName(7, 3)}, Assignments, table) ==
            Success(Skipped)
  {
  }
}
