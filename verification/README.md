# RenAIssanceOCR preprocessing and OCR server core, in Dafny

This project models the image-preprocessing core of RenAIssanceOCR, a tool
that cleans up scanned pages of early-modern printed books before OCR, and
the pure parts of its OCR web server. It covers these components:

- **Registry**: the closed catalogue of the seven preprocessing operations
  (`normalize`, `grayscale`, `deskew`, `denoise`, `contrast`, `sharpen`,
  `threshold`), its lookup and its listing.
- **Operations**: the seven operations. Each one reads its parameters with
  Python's defaults and conversions (`int()` truncation, `n | 1`, clamping)
  and emits its progress reports. The OpenCV kernels it calls are supplied
  as an oracle record (`Kernels`). The arithmetic the source does itself is
  modelled sample by sample: the strength blend of `normalize`, the
  unsharp-mask clip of `sharpen` and the Sauvola comparison of `threshold`.
- **Progress**: the per-step progress callback and the run-level
  aggregator, with the clock passed in as an integer millisecond reading.
- **Pipeline**: the executor. It filters enabled steps, rewrites
  parameters for preview mode, runs steps in order with the stop-on-error
  or continue policy, relays progress and records step outcomes. Its
  `run_pipeline` wrapper is modelled too. The operations are supplied
  through an environment (`Env`).
- **PipelineConfig**: the structural validator of a pipeline description.
- **TextLines**: the greedy grouping of detected word boxes into text
  lines, which uses a stable sort by centre row (**StableSort**).
- **DataUtils**: the legacy notebook utilities:
  - page-spec expansion;
  - page selection and image counting when a PDF is cut into page images;
  - the legacy seven-entry operation table with its `apply_operation` /
    `run_pipeline`;
  - the page-to-pipeline map of `process_image_folder`.
- **Server**: the pure helpers of the FastAPI backend:
  - the 12-second rate limiter;
  - the model whitelist and API-key length checks;
  - MIME-type selection;
  - data-URL splitting;
  - the order and layout of the combined transcript export.

Python's dynamic values are the `Values.Value` datatype, with Python
truthiness, hashability, `int()` conversion and the text an f-string
shows. A pipeline step keeps whatever values its dictionary holds, so a
step whose `op` is `None`, a number or a list, or whose `params` is not a
dictionary, runs into the same error the executor meets.

## Model

| member | source | states |
|---|---|---|
| Values.Trunc | backend/preprocessing/operations.py:345 | Python `int()` of a float truncates toward zero: the result is within one of the argument, on its side of zero |
| Values.OrOne | backend/preprocessing/operations.py:297 | `k \| 1` is odd, keeps odd numbers and bumps even ones by one |
| Values.OddAtLeast3 | backend/preprocessing/operations.py:467 | the block size is odd and at least 3, unchanged when already so, and at most one above the request |
| Values.ClampInt | backend/preprocessing/operations.py:290 | an integer clamp lies in the range, is unchanged inside it and gives the lower bound below it |
| Values.ClampReal | backend/preprocessing/operations.py:161-163 | a clamped value lies in the range and is unchanged when already inside it |
| Values.IntOf | backend/preprocessing/operations.py:345 | `int()` truncates any number toward zero (a bool counts as 0 or 1), parses a signed digit string, and fails on None, lists and dicts |
| Values.ParseInt | backend/preprocessing/operations.py:345 | a digit string parses to its decimal value and the empty string fails |
| Values.IntTextRoundTrip | backend/preprocessing/operations.py:345 | `int(str(n)) == n` for every integer, negative ones included |
| Values.DecimalString | backend/main.py:477 | a natural number is written as digits with no leading zero |
| Values.DecimalRoundTrip | backend/main.py:477 | the decimal text of a natural number reads back as that number |
| Values.Display | backend/preprocessing/pipeline.py:116 | an f-string shows a string as itself and an integer as text that reads back as that integer |
| Registry.ListOperations | backend/preprocessing/operations.py:552-570 | seven distinct operation names, and every operation's name is among them |
| Registry.GetOperationListed | backend/preprocessing/operations.py:563-570 | a name is found by `get_operation` exactly when `list_operations` lists it, and it is found under its own name |
| Registry.NameRoundTrip | backend/preprocessing/operations.py:552-565 | looking up an operation's registered name gives back that operation |
| Operations.ConstantIffFlat | backend/preprocessing/operations.py:71-72 | a channel is constant exactly when its minimum equals its maximum |
| Operations.BlendSample | backend/preprocessing/operations.py:81-85 | `astype(np.uint8)` always yields a byte |
| Operations.BlendBetween | backend/preprocessing/operations.py:81-85 | with a weight in [0, 1] and 8-bit samples, the blended byte lies between the original and the stretched sample |
| Operations.BlendZero | backend/preprocessing/operations.py:81-85 | weight 0 gives back an 8-bit sample unchanged |
| Operations.NormalizeChannel | backend/preprocessing/operations.py:65-85 | an empty channel is an error; a flat channel is returned unchanged; strength at least 1 gives the full stretch; a stretch of another length is an error; otherwise each sample is the blend truncated and cast to a byte; strength 0 leaves an 8-bit channel unchanged |
| Operations.BlendNothing | backend/preprocessing/operations.py:81-85 | blending an 8-bit channel at strength 0 returns it unchanged |
| Operations.NormalizeStaysInRange | backend/preprocessing/operations.py:65-85 | for strength in [0, 1] with 8-bit input and stretch, the result is 8-bit and each sample lies between the original and the stretched value |
| Operations.NegativeStrengthWraps | backend/preprocessing/operations.py:43-85 | a negative strength pushes the blend out of the byte range and the cast wraps it: 0 blended toward 255 at strength −1 becomes 1 |
| Operations.ScaledBetween | backend/preprocessing/operations.py:81-85 | a blend with weight in [0, 1] moves a sample at most the whole way toward the stretched value |
| Operations.NormalizeEach | backend/preprocessing/operations.py:50-57 | the channel loop normalises every plane in order and reports 0.2 + 0.25·i per channel; a failure comes from some channel |
| Operations.NormalizeOp | backend/preprocessing/operations.py:24-62 | a bad strength fails after the 0.1 report; success keeps the shape and has each plane normalised with weight strength/100; for a 2-D image or one of at most four channels the reports rise and stay within [0, 1], ending at 1.0 on success |
| Operations.NormalizeReportsPastOne | backend/preprocessing/operations.py:50-57 | with five or more channels that all normalise, the report before the fifth channel is 1.2, so the reports leave the progress range |
| Operations.Squeeze | backend/preprocessing/operations.py:110-112 | squeezing drops exactly the unit axes and keeps the pixel count |
| Operations.GrayscaleOp | backend/preprocessing/operations.py:88-120 | a 2-D image passes through, a single-channel 3-D image is squeezed to the same pixels, and any other image gets OpenCV's BGR-to-gray conversion, which may fail after the 0.2 report; success reports 0.2 then 1.0 |
| Operations.GrayscaleIdempotent | backend/preprocessing/operations.py:88-120 | converting an image the operation already made 2-D returns it unchanged, and a squeezed (h, w, 1) image with h, w > 1 does become 2-D |
| Operations.FoldRectAngle | backend/preprocessing/operations.py:211-214 | the contour angle folded into [-45, 45], differing from the raw angle by 0 or ±90 |
| Operations.SkewAngle | backend/preprocessing/operations.py:150-163 | the contour estimate is kept unless it is out of range, then the Hough estimate is used, then 0; the result always lies within ±maxAngle |
| Operations.DeskewOp | backend/preprocessing/operations.py:123-189 | a failed gray conversion fails after the 0.1 report; a bad maxAngle fails; an angle below 0.1° returns the image unchanged; otherwise a 1-D image fails and any other gets the rotation about its centre, which may fail; reports rise to 1.0 |
| Operations.DenoiseCall | backend/preprocessing/operations.py:279-312 | bilateral needs a number (diameter `int()` clamped to [5, 15], sigmas 7.5 × strength); gaussian needs only `int()` (odd kernel at least 3, at most one above the strength); non-local means, the default, needs a number (h clamped to [3, 30], windows 7 and 21, colour variant for 3-D images) |
| Operations.AsBytes | backend/preprocessing/operations.py:283 | `astype(np.uint8)` keeps the shape and wraps every sample modulo 256 into a byte |
| Operations.AsBytesKeepsBytes | backend/preprocessing/operations.py:283 | the cast leaves an image of bytes unchanged |
| Operations.DenoiseOp | backend/preprocessing/operations.py:256-318 | a strength the chosen filter cannot use fails after the 0.1 and 0.2 reports; otherwise the result is that filter applied to the image cast to bytes, failure included |
| Operations.DenoiseStrengthText | backend/preprocessing/operations.py:290-297 | a gaussian strength given as digit text acts as that integer, while a bilateral one fails because `strength * 7.5` is undefined on text |
| Operations.TileSize | backend/preprocessing/operations.py:342-345 | the tile size is `int()` of the parameter clamped to [2, 16], unchanged inside; it fails exactly when `int()` does |
| Operations.ContrastOp | backend/preprocessing/operations.py:321-371 | a bad tile size or clip limit fails after the 0.1 report; a 2-D image has every plane equalised with the clip limit and clamped tile; a colour image goes to LAB, only L is equalised, a and b are kept, and it comes back to BGR, any conversion failure propagating |
| Operations.ContrastTileClamped | backend/preprocessing/operations.py:345 | any tile size acts as its clamp into [2, 16], and digit text acts as the integer |
| Operations.SharpenSample | backend/preprocessing/operations.py:419-426 | the unsharp-mask sample is clipped to [0, 255] and is unchanged where the blur is equal to the pixel |
| Operations.SharpenKernel | backend/preprocessing/operations.py:403 | the Gaussian kernel size is odd and at least 3 |
| Operations.SharpenOp | backend/preprocessing/operations.py:374-431 | a non-numeric amount fails; amount ≤ 0 returns the image unchanged; otherwise a non-numeric radius fails, after the 0.3 report when it is text that `int()` reads once repeated and after 0.1 otherwise; a failed blur or a blur of another shape fails; success is the per-sample unsharp mask with weight amount/100 against the blur |
| Operations.SharpenTextRadius | backend/preprocessing/operations.py:395-412 | a digit-text radius such as "1" reaches the kernel size (`int("11")`) and the 0.3 report before the blur refuses it, while negative text such as "-1" fails right after 0.1 |
| Operations.SharpenKeepsBlurFixedPoint | backend/preprocessing/operations.py:403-426 | an 8-bit image the blur leaves unchanged comes back unchanged for any numeric amount |
| Operations.SauvolaMonotone | backend/preprocessing/operations.py:535-536 | the Sauvola threshold does not decrease as the local deviation grows |
| Operations.Variance | backend/preprocessing/operations.py:527-529 | the local variance is clamped at 0 and equals E[x²] − E[x]² when that is non-negative |
| Operations.SauvolaSample | backend/preprocessing/operations.py:535-543 | a pixel becomes 255 exactly when it is above its local Sauvola threshold, otherwise 0 |
| Operations.SauvolaK | backend/preprocessing/operations.py:535-536 | k takes part in the threshold when it is a number or a list holding one number, which broadcasts as that number; other lists and non-numbers fail |
| Operations.SauvolaOp | backend/preprocessing/operations.py:504-545 | on success every pixel is binarised against its own window statistics with k read as numpy does; matching statistics and a usable k always succeed; its reports continue the threshold script |
| Operations.SauvolaSingletonK | backend/preprocessing/operations.py:535-536 | a one-element list of k binarises exactly as k itself |
| Operations.BlockSize | backend/preprocessing/operations.py:463-467 | the block size is `int()` of the parameter made odd and at least 3, at most one above a request of 3 or more; it fails exactly when `int()` does |
| Operations.ThresholdOp | backend/preprocessing/operations.py:438-501 | a bad block size fails after the 0.1 report; a failed gray conversion fails; otherwise adaptive (C = 8), Sauvola, or Otsu as the fallback, on the gray view |
| Operations.ThresholdBlockOdd | backend/preprocessing/operations.py:467 | an even block size 2m acts as 2m + 1, and digit text acts as the integer |
| Operations.Apply | backend/preprocessing/pipeline.py:141-146 | grayscale ignores its parameters; every other operation given parameters that are not a dict fails with the AttributeError of `.get` after the 0.1 report |
| Operations.RunNamed | backend/preprocessing/operations.py:563-565 | an unregistered name fails without reports; a registered one runs that operation; a successful run ends with a final report of 1.0 |
| Progress.Contribution | backend/preprocessing/progress.py:56 | each of n steps contributes 1/n; a non-positive total counts as one step |
| Progress.OverallPercent | backend/preprocessing/progress.py:57-61 | the overall percentage is clamped to [0, 100] |
| Progress.OverallPercentExact | backend/preprocessing/progress.py:57 | inside the range, percent × total = (step index + fraction) × 100 |
| Progress.OverallPercentMonotone | backend/preprocessing/progress.py:56-61 | within a step a larger fraction never lowers the percentage |
| Progress.OverallPercentAcrossSteps | backend/preprocessing/progress.py:56-61 | overall progress never goes down from an earlier step or fraction to a later one |
| Progress.StepBoundary | backend/preprocessing/progress.py:56-61 | step i at 100 % reads the same as step i+1 at 0 % |
| Progress.LastStepComplete | backend/preprocessing/progress.py:56-61 | the last step at fraction 1.0 reads exactly 100 |
| Progress.NewCallback | backend/preprocessing/progress.py:78-101 | a fresh callback has empty history and is stamped with the creation time |
| Progress.Report | backend/preprocessing/progress.py:44-71 | a report appends one entry carrying step, message, index, total, elapsed time and overall percent; it is forwarded only when a listener is attached |
| Progress.HistoryGrowsByOne | backend/preprocessing/progress.py:44-68 | n reports add exactly n history entries, keep the earlier ones and change nothing else about the callback |
| Progress.ReportAllEntries | backend/preprocessing/progress.py:44-68 | the k-th entry a run of reports adds is the k-th report: the callback's step, the time since its creation and the overall percent of the k-th fraction |
| Progress.HistorySnapshotPrefix | backend/preprocessing/progress.py:68-75 | a history taken earlier is a prefix of any history taken after further reports, which has one more entry per report |
| Progress.NewAggregator | backend/preprocessing/progress.py:111-116 | a fresh aggregator has no steps, no timestamps and 0 % |
| Progress.Start | backend/preprocessing/progress.py:118-121 | starting clears the step records and stamps the start time |
| Progress.StepStarted | backend/preprocessing/progress.py:123-135 | a new open step record is appended and becomes current; earlier records are untouched |
| Progress.StepCompleted | backend/preprocessing/progress.py:137-144 | only the last record is closed, with end time, duration, success and error; with no records nothing changes |
| Progress.UpdateProgress | backend/preprocessing/progress.py:146-149 | the current step and percent follow the report; records are untouched |
| Progress.Finish | backend/preprocessing/progress.py:151-153 | only the end time changes |
| Progress.GetSummary | backend/preprocessing/progress.py:155-173 | total duration is end − start when both stamps are set and non-zero, else 0; one summary per step record; final percent is the current one |
| Progress.RecordsAppendOnly | backend/preprocessing/progress.py:123-144 | any sequence of events leaves earlier step records in place; a closed record that is not the last one is never changed again |
| Pipeline.ToStep | backend/preprocessing/pipeline.py:81-88 | "op" defaults to the empty string and "params" to an empty dict; values that are present are kept as they are, whatever their type |
| Pipeline.EnabledPositions | backend/preprocessing/pipeline.py:81-89 | exactly the enabled steps are kept, in their original order |
| Pipeline.ActiveSteps | backend/preprocessing/pipeline.py:81-89 | the active steps are the enabled raw steps, in order |
| Pipeline.MinTen | backend/preprocessing/pipeline.py:204 | preview caps a numeric strength at 10 and leaves smaller values alone; a non-number is an error |
| Pipeline.AdjustForPreview | backend/preprocessing/pipeline.py:187-206 | only a denoise step is looked at, and there parameters that are not a dict fail; a method of exactly "nlm" becomes bilateral with strength `min(strength, 10)` (10 when absent), a non-numeric strength failing; every other key and every other step is unchanged |
| Pipeline.Outcome | backend/preprocessing/pipeline.py:104-150 | an unhashable op raises TypeError; any other unregistered op gives "Unknown operation: " and the op's text; parameters without `.copy()` fail; otherwise the operation's result on the prepared parameters |
| Pipeline.Relay | backend/preprocessing/pipeline.py:132-137 | each operation report becomes one progress record with the step's overall percent; the aggregator follows the last one |
| Pipeline.Attempt | backend/preprocessing/pipeline.py:103-170 | one step whose op can be looked up: the image advances on success, the error is logged on failure, and exactly one closed record is appended with the step's outcome |
| Pipeline.RunFrom | backend/preprocessing/pipeline.py:103-170 | a raise stops the run and comes from an unhashable op among the remaining steps; a continue-on-error run halts only by raising; logged errors only grow; a run that does not halt records every remaining step |
| Pipeline.Execute | backend/preprocessing/pipeline.py:61-179 | an unhashable active op makes execute raise TypeError; otherwise success exactly when no error was logged; with no enabled steps the image is returned unchanged and no step is recorded |
| Pipeline.RunPipeline | backend/preprocessing/pipeline.py:209-245 | the wrapper uses a fresh executor: success exactly when there are no errors, and a pipeline with no enabled step returns the image with no records, 0 % and no elapsed time |
| Pipeline.ReusedExecutorKeepsPercent | backend/preprocessing/progress.py:118-121 | starting a run clears the step records but not the current percentage, so a reused executor given no enabled step reports the percentage its previous run ended at |
| Pipeline.FailuresOrdered | backend/preprocessing/pipeline.py:150-170 | the failures of a continue-on-error run are listed in step order, each naming its step |
| Pipeline.FirstFailure | backend/preprocessing/pipeline.py:103-170 | the first failing step fails on the image produced by the steps before it |
| Pipeline.RunRecords | backend/preprocessing/pipeline.py:107-161 | each step a run reaches has one closed record at its own position, failed exactly when an error names it |
| Pipeline.LenientRun | backend/preprocessing/pipeline.py:103-170 | a continue-on-error run raises exactly when some remaining op is unhashable, and otherwise ends with the image every step passed on |
| Pipeline.LenientErrors | backend/preprocessing/pipeline.py:150-170 | a continue-on-error run that does not raise appends exactly the failures of the remaining steps |
| Pipeline.StrictRun | backend/preprocessing/pipeline.py:150-170 | from any step, the stop-on-error run stops exactly at the first later failure, raising if that step's op is unhashable |
| Pipeline.ExecuteIsRun | backend/preprocessing/pipeline.py:61-179 | execute is the step-by-step run over the active steps followed by finish, or the run's raise |
| Pipeline.ExecuteRecords | backend/preprocessing/pipeline.py:103-179 | every attempted step has one aggregator record, marked failed exactly when an error names it; the summary has one entry per record |
| Pipeline.ExecuteLenient | backend/preprocessing/pipeline.py:150-170 | without stop-on-error, execute returns exactly when every active op is hashable; then every step is attempted, failed steps pass their input through, and the errors are those failures in order |
| Pipeline.ExecuteStrict | backend/preprocessing/pipeline.py:150-170 | with stop-on-error the run halts at the first failure with that single error and the image from just before it, or raises if that step's op is unhashable; otherwise every step succeeds |
| Pipeline.ExecuteProgressRises | backend/preprocessing/pipeline.py:132-137 | when every operation's reports are paced (each in [0, 1], never decreasing), the progress notices a listener receives never go down |
| Pipeline.ExecuteEndsAtHundred | backend/preprocessing/pipeline.py:172-178 | when the last active step is recorded as a success, the final percent is 100 |
| Pipeline.NoticesPaced | backend/preprocessing/pipeline.py:132-137 | a step's notices rise and stay within that step's share of the bar |
| PipelineConfig.StepComplaints | backend/preprocessing/pipeline.py:259-272 | a step draws no complaint exactly when it is a dictionary with a registered op and dictionary-or-absent params; a params complaint comes after the op complaint |
| PipelineConfig.StepComplaintsMeaning | backend/preprocessing/pipeline.py:259-272 | each complaint appears exactly when its own check fails |
| PipelineConfig.ComplaintsEmptyIff | backend/preprocessing/pipeline.py:259-274 | the complaint list is empty exactly when every step is acceptable |
| PipelineConfig.ComplaintsComplete | backend/preprocessing/pipeline.py:259-272 | every complaint about every step is in the list |
| PipelineConfig.ComplaintsSound | backend/preprocessing/pipeline.py:259-272 | every complaint in the list is one its step draws |
| PipelineConfig.Validate | backend/preprocessing/pipeline.py:248-277 | a non-list draws the single list complaint; otherwise valid exactly when every step is acceptable, and the errors are exactly the steps' complaints, step by step, each step's op complaint before its params complaint |
| PipelineConfig.ValidateAsWritten | backend/preprocessing/pipeline.py:248-277 | the checker as written raises exactly when some dictionary step has a truthy unhashable op, and otherwise agrees with the corrected checker |
| PipelineConfig.UnhashableOpRaises | backend/preprocessing/pipeline.py:267 | a step whose op is a list makes the checker as written raise instead of reporting it |
| StableSort.Order | src/textDetection.py:46 | the stable sort yields every position exactly once, ordered by key |
| StableSort.OrderIsPermutation | src/textDetection.py:46 | each position appears exactly once in the sorted order |
| StableSort.OrderIsStable | src/textDetection.py:46 | equal keys keep their original relative order |
| TextLines.Keys | src/textDetection.py:37-44 | one centre-row key per box |
| TextLines.Hull | src/textDetection.py:68-71 | the grown bounding box contains both boxes and each edge comes from one of them |
| TextLines.VerticalOverlap | src/textDetection.py:52-55 | the shared rows are never negative and never more than the box's height minus one, reached when the line spans the box vertically |
| TextLines.Gap | src/textDetection.py:62 | the horizontal gap is never negative and is zero exactly when the box and line spans touch or overlap |
| TextLines.AvgWidth | src/textDetection.py:63 | the average width is at least 1 and at least the mean of the two widths |
| TextLines.FirstFit | src/textDetection.py:49-73 | the box joins the first line it fits and no earlier line |
| TextLines.PlaceFirstFit | src/textDetection.py:49-76 | a box opens a new line exactly when it fits no existing line; otherwise it joins the first one it fits |
| TextLines.ThinBoxNeverFits | src/textDetection.py:55-60 | with the default 0.6 overlap, a box at most two rows tall never joins a line |
| TextLines.ThinBoxOpensLine | src/textDetection.py:55-76 | such a box always starts a line of its own |
| TextLines.GroupedWellFormed | src/textDetection.py:49-76 | every line's box is exactly the hull of its members |
| TextLines.GroupedPartition | src/textDetection.py:49-76 | the lines together hold each box index exactly as often as it was placed |
| TextLines.GroupedInOrder | src/textDetection.py:46-76 | within each line the members stay in top-to-bottom order |
| TextLines.GroupLines | src/textDetection.py:46-76 | there are at most as many lines as boxes, and every line is non-empty with its box the hull of its members |
| TextLines.Shapes | src/textDetection.py:81-83 | exactly the member polygons with at least three points are kept: each kept one is such a polygon, each such polygon is kept, and none are kept exactly when every member's polygon is shorter |
| TextLines.ShapesAppend | src/textDetection.py:81-83 | the polygons kept for two runs of members are those of the first run followed by those of the second, so the filter keeps member order |
| TextLines.GroupBoxesToLines | src/textDetection.py:28-96 | the result succeeds exactly when every member has a polygon, and then lists the grouped lines with their indices, boxes and the member polygons with at least three points; otherwise the index error |
| TextLines.LinesPartitionBoxes | src/textDetection.py:28-96 | every box index lands in exactly one line, and there are at most as many lines as boxes |
| TextLines.LineBoxesInside | src/textDetection.py:68-71 | every member box lies inside its line's box |
| TextLines.LinesTopToBottom | src/textDetection.py:46-76 | the members of each line are listed in sort order |
| TextLines.MissingPolygonRaises | src/textDetection.py:81 | grouping raises exactly when there are fewer polygons than boxes |
| DataUtils.Interval | src/dataUtils.py:289-290 | a tuple covers every page from its start to its end inclusive |
| DataUtils.ExpandPages | src/dataUtils.py:285-294 | a page is in the expansion exactly when some item covers it |
| DataUtils.EmptySpan | src/dataUtils.py:289-290 | a tuple whose end is before its start covers nothing |
| DataUtils.ExpandPagesSwap | src/dataUtils.py:285-294 | swapping two adjacent items does not change the expansion |
| DataUtils.ListSelection | src/dataUtils.py:45-49 | at most one page per list entry, each an existing zero-based page |
| DataUtils.ListSelectionAppend | src/dataUtils.py:45-49 | selecting from two lists one after the other is selecting from their concatenation, so the selection keeps list order |
| DataUtils.ListSelectionCounts | src/dataUtils.py:45-49 | a zero-based page is selected as often as its one-based number occurs in the list, when in range, and never otherwise |
| DataUtils.ListSelectionMultiplicity | src/dataUtils.py:45-49 | the same, stated as multiset multiplicities |
| DataUtils.ListSelectionKeepsOrder | src/dataUtils.py:45-49 | when every listed page is in range, the selection is the list shifted to zero-based, in order |
| DataUtils.RangeSelection | src/dataUtils.py:51-55 | a range selects exactly the pages between the clamped bounds, consecutively |
| DataUtils.AllPages | src/dataUtils.py:57-58 | with no list and no range every page is selected in order |
| DataUtils.SelectPages | src/dataUtils.py:45-58 | the list wins over the range, the range over all pages; every selected page exists |
| DataUtils.PageFiles | src/dataUtils.py:79-100 | a spread is cut into two halves meeting at the midline, any other page is saved whole, numbering consecutively |
| DataUtils.ImageCountBounds | src/dataUtils.py:73-107 | between one and two images per selected page, exactly one each when no page is a spread |
| DataUtils.AllFiles | src/dataUtils.py:73-107 | the files of a run of pages are numbered on without gaps, each cut from one of those pages and lying inside it |
| DataUtils.PdfToImages | src/dataUtils.py:8-116 | the files written are the selected pages' files, page after page in selection order, numbered from 1 without gaps, each inside its page; the count is the number of files |
| DataUtils.LegacyLookup | src/dataUtils.py:255-263 | a name is found exactly when it is one of the seven legacy names |
| DataUtils.ApplyOperation | src/dataUtils.py:265-273 | an unhashable or unknown name is an error; falsy params call the function with the image alone; truthy params that are not a mapping are an error; a truthy dict is passed as keyword arguments |
| DataUtils.FalsyParamsAlike | src/dataUtils.py:271-273 | every falsy params value, `{}` included, makes the same call |
| DataUtils.DictParamsPassed | src/dataUtils.py:271-273 | a dict of params, empty or not, hands the function exactly its entries |
| DataUtils.ApplyStep | src/dataUtils.py:278-281 | a step without "op" is a key error; a step fails with a lookup or argument error exactly when it is refused whatever the image; an unhashable or unknown op fails accordingly; without "params" the function gets no keywords, and dict params are passed entry for entry |
| DataUtils.RunPipeline | src/dataUtils.py:275-283 | no steps return the image; a pipeline holding a refused step always fails; a failure that is not raised by a function comes from a refused step |
| DataUtils.RunPipelineAppend | src/dataUtils.py:275-283 | running two pipelines one after the other is running their concatenation, stopping at the first error |
| DataUtils.UnknownStepStops | src/dataUtils.py:265-283 | an unknown step after a successful prefix stops the run with its error |
| DataUtils.LastRule | src/dataUtils.py:310-314 | the rule chosen for a page covers it and no later rule does |
| DataUtils.PageMap | src/dataUtils.py:307-314 | a page is mapped exactly when some rule covers it |
| DataUtils.PageMapLastWins | src/dataUtils.py:307-314 | a page is mapped exactly when some rule covers it, and then to the pipeline of the last such rule |
| DataUtils.PipelineFor | src/dataUtils.py:324 | a page with no rule gets the default pipeline, otherwise its last covering rule's pipeline |
| Server.CanProceed | backend/main.py:57-67 | a request may proceed exactly when there was none yet or the interval has elapsed; otherwise the wait is `int(remaining) + 1`: at least one second, within one second above the remaining time, enough to pass, and at most the interval plus one |
| Server.WaitIsEnough | backend/main.py:57-67 | asking again after the announced wait is allowed |
| Server.RecordRequest | backend/main.py:69-71 | recording keeps the interval and stamps the time |
| Server.RecordedBlocks | backend/main.py:57-71 | right after a request is recorded, the next one must wait the whole interval plus one second |
| Server.GetStatus | backend/main.py:73-83 | ready exactly when the interval allows a call, with wait 0; otherwise a wait of at least a second that is long enough; the last request is reported as stored |
| Server.StatusAgrees | backend/main.py:73-83 | the status endpoint reports the same readiness and wait as the limiter check |
| Server.ModelIds | backend/main.py:92-118 | four distinct model ids |
| Server.DefaultModelAccepted | backend/main.py:113-118 | the default model is on the whitelist |
| Server.UploadMime | backend/main.py:268-271 | a supported content type is kept; a missing or unsupported one becomes image/png |
| Server.UploadMimeIdempotent | backend/main.py:268-271 | choosing the MIME type twice changes nothing |
| Server.ValidateApiKey | backend/main.py:189-213 | a key is accepted exactly when it has at least 20 characters; an empty key gets its own 401 message |
| Server.KeyChecksDiffer | backend/main.py:189-260 | every key the validation endpoint accepts passes the OCR endpoint's check, but keys of 10–19 characters pass only the latter |
| Server.SplitDataUrl | backend/main.py:346-352 | without a comma the whole input is the payload and the MIME type is image/png; otherwise the input is the comma-free header, the first comma and the payload, and the MIME type is read from that header |
| Server.SplitAtFirstComma | backend/main.py:346-349 | a comma-free header followed by a comma and any payload splits back into that header and payload |
| Server.DataUrlRoundTrip | backend/main.py:346-352 | splitting `data:<mime>;base64,<payload>` recovers the MIME type and the payload, for a MIME type free of `:`, `;` and `,` |
| Server.EmptyMediaType | backend/main.py:349 | `data:;base64,` yields an empty MIME type rather than the default |
| Server.OcrUpload | backend/main.py:221-305 | rate limit first (429 with the wait), then model (400), then key length (401); the OCR call gets the payload and the chosen MIME type; a transcript is answered and recorded; a failure naming a bad key is 401, else one naming the quota is 429, else a failed response carrying the error text |
| Server.OcrBase64 | backend/main.py:308-468 | the same rate-limit and model gates; the payload split from the data URL is base64-decoded and only the decoded bytes reach the OCR call, with the MIME type from the header; a transcript is answered and recorded; a failure of decoding or of the call naming a bad key is 401, any other a failed response carrying the error text |
| Server.UndecodableNeverCallsOcr | backend/main.py:354-384 | when the payload does not decode, the answer does not depend on the OCR call at all |
| Server.DataUrlMatchesUpload | backend/main.py:221-384 | uploading image bytes of an allowed type and sending a data URL whose payload decodes to those bytes get the same answer, except that a quota error is 429 on upload and a failed response on the base64 endpoint |
| Server.FailuresDoNotCount | backend/main.py:308-384 | a request that does not succeed leaves the limiter's answer unchanged at any later time |
| Server.PageOrder | backend/main.py:477 | pages are ordered by numeric key (non-numeric keys count as 0), ties keeping insertion order |
| Server.PageOrderIsPermutation | backend/main.py:477-483 | each transcript appears exactly once in the export |
| Server.NumberedPagesInOrder | backend/main.py:477 | numbered pages come out in numeric order, so page 2 precedes page 10 |
| Server.SectionLayout | backend/main.py:482 | a section is `page_`, the key, a newline, twenty rule characters, a newline and the text |
| Server.JoinLength | backend/main.py:485 | joining n parts adds n − 1 separators |
| Server.Sections | backend/main.py:477-483 | one section per transcript, in page order |
| Server.CombinedTranscript | backend/main.py:475-485 | the export is empty exactly when there are no pages, and otherwise begins with the section of the first page in output order |
| Server.TranscriptSections | backend/main.py:475-485 | the combined transcript is built section by section in page order, separated by blank lines |
| Server.TranscriptLength | backend/main.py:475-485 | the export's length is the sections' lengths plus two characters between consecutive sections |
| Server.SinglePage | backend/main.py:475-485 | a single-page export is just that page's section |

## Left out

- OpenCV and NumPy calls are oracle parameters: `Kernels` in Operations, `Env` in Pipeline, `Kernel` in DataUtils, and `Ocr` and `Decode` in Server. Their numerics (min-max stretch, Hough lines, minAreaRect, filters, CLAHE, Otsu, rotation, box filters) are not modelled. The shapely union is replaced as described under TextLines.GroupBoxesToLines. The source's own arithmetic around the kernels is modelled.
- Failing oracles: `Kernels.apply`, `Env.op`, `Kernel`, `Ocr` and `Decode` may fail, and the failure is passed on as the source's exception would be. The `Kernels` fields `stretch`, `equalize`, `contourAngle`, `houghAngle`, `localMoments` and `sqrt` always return a value: an OpenCV error inside `cv2.normalize`, CLAHE, `findContours`, `HoughLinesP` or `cv2.blur` is not modelled.
- Floating point is modelled as exact `real` arithmetic. `sqrt` is an oracle field.
- Clocks: Progress and Pipeline take integer millisecond readings as parameters; the Server's rate limiter takes `time.time()` as a real number of seconds. `processing_time_ms` in the OCR responses is not modelled.
- Operations.NormalizeChannel: `astype(np.uint8)` of a float outside [0, 256) has no fixed result in NumPy; the model truncates toward zero and wraps modulo 256, which is what common platforms do. The wrap only matters for a strength outside [0, 100].
- Values.IntOf: `int()` on text also accepts surrounding whitespace and digit-group underscores; the model accepts only an optional sign followed by ASCII digits, so such text counts as a failed conversion.
- Values.Display: the text of a float, list or dict op in "Unknown operation: …" is a placeholder. Python's exact float and container formatting is not modelled.
- Pipeline.Execute: when an unhashable op makes the executor raise, the model returns the TypeError alone. The state the executor's aggregator is left in is not returned.
- Pipeline.Execute: traceback text and log lines are not modelled. The text of an operation's own exceptions comes from the `Env` oracle.
- Pipeline.Execute: operations are an `Env` oracle rather than the Operations module, because Operations works on a concrete image type while the executor is generic in the image.
- Pipeline.ExecuteEndsAtHundred: the final percent is 100 only when the last active step is recorded as a success, as the code does. A run whose last active step fails or is unknown stops short of 100.
- Operations.SauvolaOp: a k given as a nested list, or as a list of several numbers, is modelled as a failure. numpy broadcasts such a k against the image when its shape fits (for example `[[0.5]]`, or one number per column) and rejects it otherwise, which depends on the image's width.
- Operations.NormalizeOp: its reports are promised to be paced only for 2-D images and images of at most four channels. With five or more channels the source announces channel i at 0.2 + 0.25·i, past 1.0 (`Operations.NormalizeReportsPastOne`), and in a run of several steps the overall percentage can then drop; `Pipeline.ExecuteProgressRises` assumes paced operations and does not cover such a run.
- Server.OcrUpload: reading the upload, the Gemini client and its call are one `Ocr` oracle. The uploaded bytes go to it as they are; only the base64 endpoints decode, through the `Decode` oracle.
- Server.PageOrder: `str.isdigit` is modelled for ASCII digits only. Other Unicode decimal digits count as non-numeric.
- DataUtils.PdfToImages: rendering, file writing and the progress bar are left out. The model keeps the page sizes, the crops and the file numbering.
- DataUtils.ApplyOperation: the legacy operation bodies (`convert_to_grayscale`, `correct_skew`, …) are an oracle, and so are keyword-argument mismatches inside them.
- DataUtils.PipelineFor: `os.listdir`, sorting file names and skipping unreadable images are left out. Pages are numbered from 1 in the given order. A list key in `page_pipelines` cannot occur for a dictionary, so that branch is not modelled.
- TextLines.GroupBoxesToLines: the union polygon is the list of member polygons with at least three points, not their geometric union. shapely is not modelled, so an exception its union may raise on invalid polygons (textDetection.py:87-89) is not either. Box extraction from detector output (`detect_lines_from_image`) is left out.
- Helper lemmas used only inside proofs have no row.

## Findings

| source | as written | input that shows it | evidently intended | confidence | as-written member | corrected member |
|---|---|---|---|---|---|---|
| backend/preprocessing/pipeline.py:267 | `op not in OP_REGISTRY` hashes `op`, so a truthy list or dict as `op` raises `TypeError: unhashable type`, although the validator is meant to return its errors rather than raise | `[{"op": ["grayscale"]}]` | the step is reported as an unknown operation and the result is `valid: False` | not executed | PipelineConfig.UnhashableOpRaises | PipelineConfig.Validate |
