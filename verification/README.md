# AOI labelling of eye-tracking samples, modelled in Dafny

`add_aoi_labels.py` labels every gaze sample of an eye-tracking recording
with the area of interest (AOI) of the stimulus that it falls in. It does
this in four steps:

1. It builds a region table from the annotation rows. Each row is one
   rectangle of one stimulus version.
2. It looks up which version ("fake" or "true") of the stimulus the
   participant read.
3. It selects that version's rectangles.
4. For each sample, it combines the two eyes' readings into one point and
   classifies the point:
   - no label when the point is off screen or the gaze is missing;
   - `"outside"` when the point is on screen but in no rectangle;
   - the rectangle's region type when exactly one rectangle contains it;
   - an error when several rectangles contain it.

The model covers these decisions as pure functions over immutable
datatypes. Tables are sequences of records and coordinates are `real`.
Python's `None` is `Option.None`. Every exception the script raises on
well-typed data is a `Result.Failure`.

| file | module | models |
|---|---|---|
| `outcomes.dfy` | `Outcomes` | `Option`, `Result`, and the script's exceptions as `Error` values |
| `seqs.dfy` | `Seqs` | pandas boolean-mask selection (`Select`); a row loop that stops at the first exception (`MapOrFail`) |
| `text.dfy` | `Text` | `str.split`, `str.replace(pat, "")` and `int(str)` on file names |
| `gaze.dfy` | `Gaze` | recording samples; `getx` / `gety` |
| `aoi.dfy` | `Aoi` | regions, the 1920×1080 screen, `get_aoi_label` |
| `tables.dfy` | `Tables` | `read_annotations` row → region, `get_stimulus_version_read_by_participant`, `get_region_details` |
| `recordings.dfy` | `Recordings` | `read_reformatted_eye_movements_data`: file-name parse, ignore list, one labelled row per sample |
| `scenarios.dfy` | `Scenarios` | worked examples: one text box, one participant, three samples |

Behaviour of the code worth knowing:

- **Version lookup.** It fails when more than one participant/version *row*
  matches, even if those rows agree on the version. pandas `.item()` counts
  rows, not distinct values.
- **Overlapping regions.** A point inside two or more rectangles is an error,
  because `.item()` raises. The script does not pick one of them.
- **Version names.** Every participant-facing version other than `"fake"` is
  looked up as `"true"`, not only `"true"` itself.
- **Rectangle ends.** The end of a rectangle is `trunc(x) + trunc(width)`.
  The start is not truncated. For a non-negative size, the end lies before
  the start exactly when the start is a positive non-whole number and the
  size is below one pixel (`RegionEndBeforeStart`). A rectangle with a
  positive fractional start and a non-negative width below one pixel
  contains no point at all (`FractionalRegionCanBeEmpty`): a start of 10.5
  with a width of 0.25 ends at 10 (`SliverIsEmpty`). A negative start with
  a non-negative size is truncated upwards and never ends before it begins.
- **File names.** The recorder zero-pads participant numbers ("P03"). `int()`
  ignores the leading zeros, and the parsers read only the first two
  "_"-separated pieces of a name, so "Q3_true_v2.png" is stimulus 3,
  version "true".
- **Errors.** The script catches no exception. An unparsable recording name,
  a failed version lookup or an overlap does not just skip that file: it
  ends the whole run. The model returns the failure from the per-file
  function. The surrounding loop is not part of this model.

## Model

| member | source | states |
|---|---|---|
| `Seqs.Select` | add_aoi_labels.py:69-73 | a boolean-mask selection keeps exactly the rows that satisfy the mask; it is empty exactly when no row does |
| `Seqs.SelectAppend` | add_aoi_labels.py:69-73 | selection distributes over concatenation, so table order is kept |
| `Seqs.SelectCases` | add_aoi_labels.py:59-60 | a selection has zero rows when no position matches, one row (the matching row) when exactly one position does, and two or more rows exactly when two positions match |
| `Seqs.MapOrFail` | add_aoi_labels.py:163-177 | a row loop succeeds exactly when every row succeeds, giving one result per row in order; otherwise it fails with the error of the first failing row |
| `Text.BeforeFirst` | add_aoi_labels.py:19 | `split(pat)[0]` is a prefix that contains no occurrence of `pat`; it ends where the first occurrence starts, or at the end of the string |
| `Text.Split` | add_aoi_labels.py:19 | `split(c)` gives at least one piece; no piece contains `c`; joining the pieces with `c` gives the input back |
| `Text.SplitJoin` | add_aoi_labels.py:19 | splitting a join of separator-free pieces returns those pieces |
| `Text.RemoveAll` | add_aoi_labels.py:20 | `replace(pat, "")` keeps a subsequence of the input: it only deletes characters, keeping the rest in order; a string with no occurrence of `pat` is returned unchanged; a one-character pattern is gone entirely from the result |
| `Text.RemoveAllSkip` | add_aoi_labels.py:20 | text in front of the first occurrence of `pat` is kept as it is and the deleting goes on after it |
| `Text.RemoveCharKeepsOthers` | add_aoi_labels.py:20 | deleting a one-character pattern keeps every copy of every other character |
| `Text.ParseInt` | add_aoi_labels.py:20 | `int(s)` succeeds exactly when `s` is an optional sign followed by at least one digit; its value is the decimal value of the digits, negated after a '-' |
| `Text.Padded` | add_aoi_labels.py:148-149 | every integer, written in decimal after any number of leading zeros (as in "03"), is read back by `int()` as that integer |
| `Gaze.Combine` | add_aoi_labels.py:77-104 | the coordinate is -1 exactly when neither reading is positive; otherwise it is positive, equals the only positive reading, or lies midway between the two |
| `Gaze.CombineIsMeanOfPositive` | add_aoi_labels.py:81-88 | the coordinate equals the arithmetic mean of the positive readings, and -1 when there are none |
| `Gaze.CombineSymmetric` | add_aoi_labels.py:77-104 | swapping the left and right readings does not change the coordinate |
| `Gaze.GazeX` | add_aoi_labels.py:77-89 | `getx` is the mean of the sample's positive X readings, and -1 when it has none |
| `Gaze.GazeY` | add_aoi_labels.py:92-104 | `gety` is the mean of the sample's positive Y readings, and -1 when it has none |
| `Aoi.ClassifyPoint` | add_aoi_labels.py:111-122 | off screen gives no label; on screen with no containing region gives "outside"; exactly one containing region gives its type; two or more give an overlap failure; a label is always "outside" or the type of a region containing the point |
| `Aoi.AoiLabel` | add_aoi_labels.py:107-122 | a sample with no positive reading on either axis, or whose gaze point is off screen, is unlabelled; an on-screen point inside no region is "outside", and inside exactly one region gets that region's type; a labelled sample has a positive reading on both axes and gets "outside" or the type of a region containing its gaze point; labelling fails exactly when that point is on screen and inside two regions |
| `Aoi.NoRegionsOutside` | add_aoi_labels.py:116-120 | with no regions, a sample is labelled "outside" exactly when its point is on screen, and is unlabelled exactly when it is not |
| `Aoi.EdgesInclusive` | add_aoi_labels.py:116-117 | a point on any edge of a region, corners included, gets that region's type when it is on screen and no other region contains it |
| `Aoi.DisjointRegionsNeverFail` | add_aoi_labels.py:121-122 | when the rectangles are pairwise disjoint, classification never fails, at any point |
| `Tables.Trunc` | add_aoi_labels.py:29-30 | `int()` of a number truncates toward zero: the result is within one of the input, on the zero side |
| `Tables.ParseAnnotationName` | add_aoi_labels.py:18-21 | a name parses exactly when the text before ".png" contains "_" and its first piece is an integer once every "Q" is deleted; the id is that integer and the version is the second piece, whatever pieces follow; every failure is a malformed annotation name |
| `Tables.AnnotationNameRoundTrip` | add_aoi_labels.py:18-21 | `Q<id>_<version><tail>.png` is read back as that id and version, with any leading zeros on the id and any further "_" pieces in the tail |
| `Tables.StemWithoutVersionFails` | add_aoi_labels.py:19-21 | a name whose text before ".png" has no "_", such as "Q3.png", fails to parse |
| `Tables.LetterIdFails` | add_aoi_labels.py:20 | a name whose id piece is "Q" and a character that is no digit or sign, such as "Qx_true.png", fails to parse |
| `Tables.AnnotationNameReads` | add_aoi_labels.py:18-21 | the annotation tool's name `Q<id>_<version>.png` is read back as that id and version |
| `Tables.RegionOfAnnotation` | add_aoi_labels.py:17-45 | an annotation row becomes a region exactly when its file name parses; the region keeps the row's start, size and region type, and ends at trunc(start) + trunc(size) |
| `Tables.LoadAnnotations` | add_aoi_labels.py:13-47 | the region table has one region per annotation row, in row order; one malformed file name fails the whole load |
| `Tables.WholePixelRegionWellFormed` | add_aoi_labels.py:29-30 | a whole-pixel rectangle with non-negative size ends exactly at start + size, and its end is not before its start |
| `Tables.RegionEndBeforeStart` | add_aoi_labels.py:29-30 | for non-negative sizes, a rectangle ends before it starts exactly when the start is positive and not whole and the size is below one pixel, on each axis |
| `Tables.FractionalRegionCanBeEmpty` | add_aoi_labels.py:29-30 | a positive fractional start with a width below one pixel gives an end before the start, and a rectangle that contains no point |
| `Tables.VersionRowCases` | add_aoi_labels.py:59-60 | the selected rows are none when no row is for the participant and question, exactly that row when one is, and two or more when two are |
| `Tables.StimulusVersion` | add_aoi_labels.py:56-62 | the lookup succeeds exactly when one row is for the participant and question, and returns that row's version; no such row is VersionNotFound; two or more rows are AmbiguousVersion |
| `Tables.AnnotationVersion` | add_aoi_labels.py:68-73 | "fake" becomes "false" and nothing else does; every other version becomes "true" |
| `Tables.RegionDetails` | add_aoi_labels.py:65-74 | the result holds exactly the table regions with the given stimulus id and the translated version (`AnnotationVersion`), each as many times as the table holds it, and nothing else |
| `Tables.RegionDetailsInOrder` | add_aoi_labels.py:65-74 | region selection over a concatenated table is the concatenation of the selections, so table order is kept |
| `Tables.NonFakeReadsTrue` | add_aoi_labels.py:71-73 | every version other than "fake" selects the same regions as "true" |
| `Recordings.ParseRecordingName` | add_aoi_labels.py:147-149 | a name parses exactly when the text before ".csv" contains "_", its first piece is an integer once every "P" is deleted, and its second piece is one once every "Stimulus" is deleted; the result is those two integers, whatever pieces follow; every failure is a malformed recording name |
| `Recordings.RecordingNameRoundTrip` | add_aoi_labels.py:147-149 | `P<p>_Stimulus<m><tail>.csv` is read back as participant p and stimulus m, with any leading zeros on either number and any further "_" pieces in the tail |
| `Recordings.RecordingNameReads` | add_aoi_labels.py:147-149 | the recorder's name for a participant and stimulus, with participant numbers below 10 zero-padded, is read back as that participant and stimulus |
| `Recordings.LabelSample` | add_aoi_labels.py:164-175 | an output row keeps its sample unchanged and carries that sample's label |
| `Recordings.LabelSamples` | add_aoi_labels.py:163-177 | labelling gives one output row per sample, in order; each row carries its sample and label; it fails exactly when some sample falls in overlapping regions |
| `Recordings.RecordingRegions` | add_aoi_labels.py:147-155 | a recording's regions resolve exactly when its name parses and its version lookup succeeds; they are exactly the table's regions of that stimulus and translated version, each as many times as the table holds it; a parse or lookup error is passed on unchanged |
| `Recordings.ProcessRecording` | add_aoi_labels.py:125-179 | an ignored file gives no output, and only an ignored one does; a name or version-lookup error is passed on; otherwise the file fails exactly when some sample falls in overlapping regions, and its output has one row per sample, in order, each keeping its sample and labelled against the regions of the version that participant read |
| `Scenarios.IgnoredNameSpelled` | add_aoi_labels.py:126 | the recorder's name for participant 3 on stimulus 7 is "P03_Stimulus7.csv", the first name on the ignore list |
| `Scenarios.SliverIsEmpty` | add_aoi_labels.py:29-30 | the row with start 10.5 and width 0.25 ends at 10 and contains no point |
| `Scenarios.TextBoxLoads` | add_aoi_labels.py:17-47 | the row `Q3_true.png` with x 10, y 20, width 100, height 50 loads as the rectangle [10, 110] × [20, 70] |
| `Scenarios.RecordingLabelled` | add_aoi_labels.py:125-179 | participant 7, who read the true version of stimulus 3, gets labels "text", "outside" and none for the points (50, 30), (5, 5) and (2000, 500) |
| `Scenarios.IgnoredRecordingSkipped` | add_aoi_labels.py:145-146 | a recording on the ignore list gives no output, even when its tables are valid |

## Left out

- File I/O is not modelled: the CSV reads and writes, the directory listing
  and changes of directory, and the `print` progress lines. Tables arrive
  as parameters, and the output table is the function's result.
- The main loop is not modelled: the `.csv` file filter, and the fact that
  one failure ends the run. It is directory-listing plumbing.
- JSON decoding is not modelled. An annotation row holds the decoded
  `x, y, width, height` and "region type" directly.
- pandas mechanics are not modelled: `concat`, dtypes, and the column order
  of the output frame.
- Floating point is not modelled. Coordinates are exact reals, so the mean
  of two readings is not rounded. The `str`/`float` round trip in
  `getx`/`gety` is taken as the identity.
- NaN is not modelled. A NaN reading fails `> 0.0` and would act as an
  absent reading.
- The ignore list's 51 literal file names are not modelled. The list is a
  `set<string>` parameter.
- Tables.RegionEndBeforeStart: stated for non-negative sizes only. A
  negative size changes the condition, and the annotation tool draws
  rectangles of non-negative size.
- Text.ParseInt: accepts only ASCII digits with an optional sign. Python's
  `int()` also skips surrounding whitespace and accepts other Unicode
  digits and `_` between digits. The file names here contain none of
  these.
