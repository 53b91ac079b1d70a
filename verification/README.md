# Trees capture and measurement core, modelled in Dafny

The trees project has two parts:

- An Android app records a tree trunk. It saves three things for each capture: the time-of-flight (ToF) depth frame, the camera image and the ARCore matrices.
- Offline scripts read those captures back and estimate the trunk's width.

This project models the core of both parts and proves properties of the model.

Modules and the source they model:

- `TofSample`, `TofUtil`: decoding of Android `DEPTH16` samples into range and confidence, and the buffers of a depth frame (`trees/.../common/helpers/TofUtil.java`).
- `Yuv`, `HelpersImageUtil`, `SharedCameraImageUtil`: the YUV_420_888 → NV21 conversion, in both copies of `ImageUtil.java`.
- `ImageStore`: the capture file names and the CSV lines written for the depth frame, the image and the matrices (`trees/.../common/helpers/ImageStore.java`).
- `SampleCounter`, `ArcoreSharedCamera`, `LegacySharedCamera`, `CaptureActivities`: the sample and capture counters of the capture activities, and what each capture saves. The sources are the two `SharedCameraActivity.java` copies and the trees `SharedCameraActivity` and `ImageCaptureActivity`.
- `ImageViewModel`: the sample/capture counters kept in preferences (`trees/.../model/ImageViewModel.java`).
- `OcclusionRenderer`: the point buffer built from a depth frame (`OcclusionRenderer.java`).
- `GalleryImageAdapter`: the bitmap sub-sampling factor (`TreeLabeler/.../GalleryImageAdapter.kt`).
- `DepthFrame`, `TrunkScan`, `Processor`, `Improc`: the trunk-width measurement the app runs in Python (`processor.py`, `improc.py`).
- `Rgbd`, `RgbdTesting`, `CaptureIndex`: the offline batch scripts `RGBD.py` and `RGBD_testing.py`. They read reference widths, index a capture directory and measure each capture.
- `PcdWrite`: the conversion of a depth CSV into a point cloud (`PclProcessing/pcd_write.cpp`).
- `CaptureRoundTrip`: what the app writes is what the offline readers read. A depth file's name parses back into its sample and capture numbers, and each depth line becomes its pixel's point.
- `Int32`, `Decimal`, `Text`: Java `int` wrap-around and truncating division, decimal integer text, and splitting and joining strings.

How the model represents the source:

- Floating-point numbers are exact reals.
- Number formatting (`Float.toString`, `DecimalFormat`) and parsing (`std::stof`, Python `float`) are function parameters, with the properties the proofs need stated as predicates.
- Android images, the file system, preferences and the camera are values or parameters.
- numpy/scipy steps enter as parameters: the modal bin that `mode` picks, PCA's axes, the rotation and the width estimate. The bins of `np.arange`, `np.digitize`, the `bins[mode]` lookup and PCA's need for two samples are modelled.

## Model

| member | source | states |
|---|---|---|
| TofSample.MasksAsArithmetic | trees/app/src/main/java/com/trees/common/helpers/TofUtil.java:45-48 | on a 16-bit word the byte-swap expression, `& 0x1FFF` and `(>> 13) & 0x7` equal the arithmetic forms the model uses |
| TofSample.SwapBytes | trees/app/src/main/java/com/trees/common/helpers/TofUtil.java:45 | the high byte of the result is the low byte of the sample and vice versa |
| TofSample.SwapBytesInvolutive | trees/app/src/main/java/com/trees/common/helpers/TofUtil.java:45 | swapping the bytes twice gives back the sample |
| TofSample.Range | trees/app/src/main/java/com/trees/common/helpers/TofUtil.java:47 | the range is at most 8191 and differs from the word by a multiple of 8192 (it is the low 13 bits) |
| TofSample.Confidence | trees/app/src/main/java/com/trees/common/helpers/TofUtil.java:48 | the confidence code is at most 7 and is the word's 8192-block |
| TofSample.FieldsReassemble | trees/app/src/main/java/com/trees/common/helpers/TofUtil.java:47-48 | range plus 8192 times confidence is the whole word: no bit is lost |
| TofSample.Percentage | trees/app/src/main/java/com/trees/common/helpers/TofUtil.java:49 | the percentage lies in [0, 1]; it is 1 exactly for code 0, 0 exactly for code 1, and (c - 1)/7 otherwise |
| TofSample.PercentageMonotone | trees/app/src/main/java/com/trees/common/helpers/TofUtil.java:49 | among codes 1..7 a larger code never gives a smaller percentage |
| TofSample.Signed | trees/app/src/main/java/com/trees/common/helpers/TofUtil.java:46 | reading the word as a Java `short` gives a value in [-32768, 32767], negative exactly when the confidence code is 4 or more, congruent to the word modulo 65536 |
| TofSample.Metres | trees/app/src/main/java/com/trees/common/helpers/TofUtil.java:58 | the depth in metres lies in [0, 8.191] and is the range divided by 1000 |
| DepthImage.SampleIndex | trees/app/src/main/java/com/trees/common/helpers/TofUtil.java:44 | the read position `(y / 2) * stride + x` of every pixel lies inside the plane |
| DepthImage.RowsShareSamples | trees/app/src/main/java/com/trees/common/helpers/TofUtil.java:44 | image rows 2r and 2r + 1 read the same stored sample |
| DepthImage.RowMajor | trees/app/src/main/java/com/trees/common/helpers/TofUtil.java:56-57 | index `y * width + x` names column x and row y |
| DepthImage.RowMajorBound | trees/app/src/main/java/com/trees/common/helpers/TofUtil.java:32 | every pixel's row-major index is below width * height, the arrays' size |
| TofUtil.TofArrays.constructor | trees/app/src/main/java/com/trees/common/helpers/TofUtil.java:21-26 | four fresh, distinct, zero-filled arrays of `size` entries |
| TofUtil.EntryOfPixel | trees/app/src/main/java/com/trees/common/helpers/TofUtil.java:41-60 | pixel (x, y), decoded, is exactly what belongs at index y * width + x |
| TofUtil.ParseTof | trees/app/src/main/java/com/trees/common/helpers/TofUtil.java:29-65 | entry i of the four arrays holds the column, row, range in metres and confidence percentage of the i-th pixel in row-major order, bytes swapped first, for every pixel |
| TofUtil.DecodeRow | trees/app/src/main/java/com/trees/common/helpers/TofUtil.java:42-61 | the inner loop extends the decoded prefix by exactly the width pixels of row y |
| TofUtil.ParseTofRowMajor | trees/app/src/main/java/com/trees/common/helpers/TofUtil.java:56-57 | in the decoded arrays the entry of pixel (x, y) sits at index y * width + x |
| Int32.Wrap | TreeLabeler/app/src/main/java/com/trees/android/treelabeler/GalleryImageAdapter.kt:52 | the value a Java/Kotlin `int` takes: always in range, unchanged when already in range, MAX_VALUE + 1 wraps to MIN_VALUE |
| Int32.TruncDiv | TreeLabeler/app/src/main/java/com/trees/android/treelabeler/GalleryImageAdapter.kt:51 | Kotlin's `/` keeps the dividend's sign |
| Int32.TruncDivBounds | TreeLabeler/app/src/main/java/com/trees/android/treelabeler/GalleryImageAdapter.kt:51 | the truncated quotient times the divisor lies within one divisor of the dividend, toward zero |
| Decimal.IntToString | trees/app/src/main/java/com/trees/common/helpers/ImageStore.java:57 | `Integer.toString`: at least one character, digits only apart from a leading minus sign, which appears exactly for negative numbers |
| Decimal.ParseInt | OfflineProcessing/v2_DepthAssistedSegmentation/RGBD.py:246-247 | Python's `int(text)` succeeds exactly when the text, its white space (0x1C–0x1F included) stripped, is an optional sign followed by digits with single `_` separators between digits |
| Decimal.ParseStripped | OfflineProcessing/v2_DepthAssistedSegmentation/RGBD.py:246-247 | the stripped text is read exactly when it is a sign and numeral or a numeral alone, and only a leading '-' gives a negative value |
| Decimal.ParseNumeral | OfflineProcessing/v2_DepthAssistedSegmentation/RGBD.py:246-247 | a numeral with nothing around it reads as the value of its digits |
| Decimal.SeparatorsIgnored | OfflineProcessing/v2_DepthAssistedSegmentation/RGBD.py:246-247 | taking the `_` separators out of a numeral leaves a numeral that reads as the same integer |
| Decimal.ParseIntToString | OfflineProcessing/v2_DepthAssistedSegmentation/RGBD.py:246-247 | `int` reads back the text `Integer.toString` wrote as the same integer, negative ones included |
| Decimal.IntToStringInjective | trees/app/src/main/java/com/trees/common/helpers/ImageStore.java:57 | distinct integers have distinct decimal texts |
| Text.Split | OfflineProcessing/v2_DepthAssistedSegmentation/RGBD.py:245 | `str.split(sep)`: at least one part, none containing the separator, and the whole text when there is no separator |
| Text.SplitJoin | OfflineProcessing/v2_DepthAssistedSegmentation/RGBD.py:76 | splitting a join of separator-free fields gives the fields back |
| Text.SplitBeforeField | OfflineProcessing/v2_DepthAssistedSegmentation/RGBD.py:245-247 | a last field after a separator becomes the last part of the split |
| Text.FirstLine | PclProcessing/pcd_write.cpp:83 | the text up to (not including) the first newline, which ends it when there is one |
| Text.GetLinesUnlines | PclProcessing/pcd_write.cpp:83 | `std::getline` over a file of newline-terminated lines yields exactly those lines |
| Text.NonEmpty | PclProcessing/pcd_write.cpp:84 | the tokenizer drops empty tokens and keeps only non-empty ones |
| Text.TokensJoin | PclProcessing/pcd_write.cpp:84-86 | non-empty, comma-free fields joined by commas tokenize back to the same fields |
| DepthFrame.Reshape | OfflineProcessing/v2_DepthAssistedSegmentation/RGBD.py:62-63 | `reshape` succeeds exactly when the buffer has rows × cols entries and gives a rows × cols grid |
| DepthFrame.RowsOfRowMajor | trees/app/src/main/python/improc.py:71 | cell (i, j) of the reshaped grid is entry i * cols + j of the flat buffer |
| DepthFrame.FlattenRowsOf | trees/app/src/main/python/improc.py:71 | reshaping loses nothing: the rows put back together are the buffer |
| DepthFrame.UpsampleRows | OfflineProcessing/v2_DepthAssistedSegmentation/RGBD.py:66-67 | `np.kron(m, np.ones((2, 2)))` turns row a into rows 2a and 2a + 1, each holding every value of row a twice |
| DepthFrame.UpsampleCell | OfflineProcessing/v2_DepthAssistedSegmentation/RGBD.py:66-67 | every cell of the 2×2 block that cell (a, b) becomes holds the value of cell (a, b) |
| DepthFrame.DownsampleUpsample | trees/app/src/main/python/improc.py:72-73 | one cell of each 2×2 block gives the original grid back, so upsampling loses nothing |
| DepthFrame.TofFrame | trees/app/src/main/python/improc.py:71-73 | the frame exists exactly for a buffer of 180 × 240 values and is then a 360 × 480 grid |
| DepthFrame.TofFrameCell | trees/app/src/main/python/improc.py:71-73 | cell (i, j) of the frame is ToF sample (i / 2, j / 2) of the row-major buffer |
| DepthFrame.SumZero | trees/app/src/main/python/processor.py:96 | a sum of non-negative values is 0 exactly when each value is 0 |
| DepthFrame.CenterSumZero | trees/app/src/main/python/processor.py:95-97 | for non-negative depths the centre third sums to 0 exactly when every centre entry is 0 (the missing-depth test) |
| DepthFrame.FilterNearMode | trees/app/src/main/python/processor.py:106-108 | entries within 10% of the mode are kept unchanged, all others become 0; the shape is kept |
| DepthFrame.NearModeWindow | trees/app/src/main/python/processor.py:106-108 | for a non-negative mode the filter keeps exactly the window [0.9 · mode, 1.1 · mode] |
| DepthFrame.FilteredInWindow | trees/app/src/main/python/processor.py:106-108 | every non-zero entry left by the filter is the original depth and lies in the window |
| DepthFrame.FilterIdempotent | trees/app/src/main/python/processor.py:106-108 | filtering twice against the same mode changes nothing more |
| DepthFrame.BinCountOfArange | trees/app/src/main/python/processor.py:101 | `np.arange(0.0, 5.0, 0.03)` has 167 edges: the 167th would be 5.01, past the stop |
| DepthFrame.BinEdge | trees/app/src/main/python/processor.py:101-103 | `bins[k]` exists exactly for -167 ≤ k < 167 (IndexError otherwise); a non-negative k gives 0.03 · k and a negative one counts from the end; every edge lies in [0, 4.98] |
| DepthFrame.Digitize | trees/app/src/main/python/processor.py:102 | `np.digitize` against the bins gives a bin number from 0 to 167 |
| DepthFrame.DigitizeBrackets | trees/app/src/main/python/processor.py:102 | a non-negative depth gets bin i ≥ 1 with edge i − 1 at or below it and edge i above it; bin 167, the one past the last edge, is exactly the depths from 4.98 m on |
| DepthFrame.ModeEdgeOfDepth | trees/app/src/main/python/processor.py:101-103 | when the modal bin is the bin of depth x, `bins[mode]` raises IndexError exactly for x ≥ 4.98 and is otherwise an edge above x by at most 0.03 |
| DepthFrame.CenterPositives | trees/app/src/main/python/processor.py:45-48 | the number of centre pixels with a positive filtered depth, the points PCA is fitted to, is at most 160 per row |
| DepthFrame.CenterPositivesZero | trees/app/src/main/python/processor.py:45-48 | no point reaches PCA exactly when every centre entry is at most 0 |
| DepthFrame.PercentError | OfflineProcessing/v2_DepthAssistedSegmentation/RGBD.py:163 | `abs(error) / width * 100` is a number exactly for a non-zero width, and then times the width gives 100 · |error| (non-negative for a positive width); a width of 0 gives inf or nan, not an exception |
| DepthFrame.ShallowCentreLeavesNoPoints | trees/app/src/main/python/processor.py:101-108 | if every centre depth is below 0.027 m, all positive ones fall in bin 1, the mode edge is 0.03, and the filter then leaves PCA no point at all |
| TrunkScan.CenterMask | trees/app/src/main/python/processor.py:26 | the mask has the frame's rows and 160 columns, 1 exactly where the centre depth is positive |
| TrunkScan.Count | trees/app/src/main/python/processor.py:31 | `np.bincount(col)[v]` is at most the column's length |
| TrunkScan.CountPositive | trees/app/src/main/python/processor.py:31 | a value occurring in the column has a positive bin |
| TrunkScan.BinaryMajority | trees/app/src/main/python/processor.py:31 | on a 0/1 column, `bincount(...).argmax() == 1` holds exactly for a strict majority of ones (a tie goes to 0) |
| TrunkScan.LeftBoundary | trees/app/src/main/python/processor.py:29-33 | the left edge is 0 exactly when no column qualifies, and otherwise 160 plus the first qualifying column |
| TrunkScan.RightBoundary | trees/app/src/main/python/processor.py:35-39 | the right edge is 0 exactly when no column qualifies, and otherwise 160 plus the last qualifying column |
| TrunkScan.Boundaries | trees/app/src/main/python/processor.py:29-39 | both edges are 0 together, or both lie in [160, 320) with left ≤ right, every qualifying column between them |
| TrunkScan.UprightAngle | trees/app/src/main/python/improc.py:51-61 | an angle within 10° of ±90° moves 90° toward 0, the shorter way, a − 90 on a tie; any other angle gets 180 added |
| TrunkScan.UprightBoundaries | trees/app/src/main/python/improc.py:28-48 | the angle is `UprightAngle` of the principal axis, and the edges are those of the scans over the rotated centre mask |
| Processor.Mod180 | trees/app/src/main/python/processor.py:58 | `np.mod(a, 180)` lies in [0, 180) and differs from a by a whole number of half turns |
| Processor.Mod180Periodic | trees/app/src/main/python/processor.py:54-58 | an angle plus any multiple of 180° reduces to the same value in [0, 180) |
| Processor.Mod180Reduced | trees/app/src/main/python/processor.py:58 | an angle already in [0, 180) is its own reduction |
| Processor.RotateAngle | trees/app/src/main/python/processor.py:44-74 | with `first`, `second` the two entries of `np.rad2deg(np.arctan2(*pca.components_))`: the result lies in (−90, 90]; it is 90 minus the first entry reduced into [0, 180) when that is less than 60° from vertical (the result is then within 60°), otherwise 90 minus the reduced second entry |
| Processor.RotateAngleAxis | trees/app/src/main/python/processor.py:54-58 | adding 180° (any multiple of it) to either entry leaves the result unchanged |
| Processor.FindBoundaries | trees/app/src/main/python/processor.py:23-41 | the angle is `RotateAngle` of the two `arctan2` entries, the edges are those of both scans over the rotated centre mask |
| Processor.Process | trees/app/src/main/python/processor.py:81-122 | MissingDepthError exactly when the centre sums to 0; otherwise IndexError exactly when the modal bin has no edge in `bins`; otherwise PCA's ValueError exactly when fewer than 2 filtered centre pixels are positive; otherwise the mode depth `bins[mode]`, the angle, edges 0 together or ordered in [160, 320), and the width estimated from their distance |
| Improc.RunFrame | trees/app/src/main/python/improc.py:68-111 | a buffer that is not 180 × 240 fails the reshape; a frame with no centre depth raises MissingDepthError; a modal bin with no edge raises IndexError; fewer than 2 positive filtered centre pixels make PCA raise ValueError; otherwise the image comes back unchanged with the frame, the filtered frame, the mode depth `bins[mode]`, the upright angle, ordered edges and the estimated width it computed |
| Rgbd.GetWidths | OfflineProcessing/v2_DepthAssistedSegmentation/RGBD.py:71-80 | the table is that of the lines read in order, a later line overwriting a sample, or the ValueError of the first bad line |
| Rgbd.TabulateFailFrom | OfflineProcessing/v2_DepthAssistedSegmentation/RGBD.py:75-78 | an error on a line is the error of the whole file |
| Rgbd.TabulateComplete | OfflineProcessing/v2_DepthAssistedSegmentation/RGBD.py:75-79 | the file is read in full exactly when every line is an entry |
| Rgbd.TabulateFirstError | OfflineProcessing/v2_DepthAssistedSegmentation/RGBD.py:77-78 | a ValueError names the first line that is not an entry, and says whether its field count was wrong |
| Rgbd.TabulateLastWins | OfflineProcessing/v2_DepthAssistedSegmentation/RGBD.py:79 | a sample's width is that of the last line naming it |
| Rgbd.TabulateNamed | OfflineProcessing/v2_DepthAssistedSegmentation/RGBD.py:79 | every sample in the table was named on some line |
| Rgbd.ListSamples | OfflineProcessing/v2_DepthAssistedSegmentation/RGBD.py:239-250 | no depth capture ends the script; a name that does not parse stops it; otherwise the captures are grouped by sample in listing order |
| Rgbd.GetData | OfflineProcessing/v2_DepthAssistedSegmentation/RGBD.py:46-68 | the matrices exist exactly for a file of 180 × 240 lines and are then the 360 × 480 upsampled confidence and depth frames |
| Rgbd.RunSample | OfflineProcessing/v2_DepthAssistedSegmentation/RGBD.py:125-214 | a file of the wrong length raises; no centre depth returns None; a modal bin with no edge raises IndexError; fewer than 2 positive filtered centre pixels make PCA raise ValueError; in every other case the row is returned, holding the sample, capture, mode depth `bins[mode]`, width, upright angle, estimated width, its error and the percentage error, with edges 0 together or ordered; a reference width of 0 does not raise and leaves the percentage infinite or undefined |
| SampleCounter.Lookup | trees/app/src/main/java/com/google/ar/core/examples/java/sharedcamera/SharedCameraActivity.java:288-290 | a stored key gives its value, a missing key gives `Integer.MIN_VALUE` |
| SampleCounter.Defaults | trees/app/src/main/java/com/google/ar/core/examples/java/sharedcamera/SharedCameraActivity.java:569-581 | an unset capture count becomes 0 and an unset sample 1; set values and every other key are kept |
| SampleCounter.DefaultsSettle | trees/app/src/main/java/com/google/ar/core/examples/java/sharedcamera/SharedCameraActivity.java:569-581 | after `onCreate` both counters are set, and running it again changes nothing |
| SampleCounter.PlusStep | trees/app/src/main/java/com/google/ar/core/examples/java/sharedcamera/SharedCameraActivity.java:1237-1244 | the step up is taken below MAX_VALUE − 1, refused into MAX_VALUE, and a stored MAX_VALUE wraps to MIN_VALUE |
| SampleCounter.MinusStep | trees/app/src/main/java/com/google/ar/core/examples/java/sharedcamera/SharedCameraActivity.java:1260-1271 | the step down is taken from 1 or more, refused at 0 and below, and a stored MIN_VALUE wraps to MAX_VALUE |
| SampleCounter.Run | trees/app/src/main/java/com/google/ar/core/examples/java/sharedcamera/SharedCameraActivity.java:1227-1278 | any run of presses leaves the sample a Java int |
| SampleCounter.RunStaysInRange | trees/app/src/main/java/com/google/ar/core/examples/java/sharedcamera/SharedCameraActivity.java:1239-1271 | from a sample in [0, MAX_VALUE − 1] no run of plus and minus presses ever leaves that range |
| SampleCounter.PlusAtMaxWraps | trees/app/src/main/java/com/google/ar/core/examples/java/sharedcamera/SharedCameraActivity.java:1240 | the guard does not cover a sample already stored as MAX_VALUE: plus wraps it to MIN_VALUE |
| SampleCounter.Counters.constructor | trees/app/src/main/java/com/google/ar/core/examples/java/sharedcamera/SharedCameraActivity.java:565 | the counters start from the saved preferences with the delete button hidden |
| SampleCounter.Counters.Get | trees/app/src/main/java/com/google/ar/core/examples/java/sharedcamera/SharedCameraActivity.java:288-290 | `getSharedPreferencesVar` is the lookup of the key, always a Java int |
| SampleCounter.Counters.Set | trees/app/src/main/java/com/google/ar/core/examples/java/sharedcamera/SharedCameraActivity.java:292-296 | `setSharedPreferencesVar` changes exactly that key |
| SampleCounter.Counters.OnCreate | trees/app/src/main/java/com/google/ar/core/examples/java/sharedcamera/SharedCameraActivity.java:568-583 | the preferences become their defaults, and a saved sample of 0 enables the delete button |
| SampleCounter.Counters.OnSamplePlus | trees/app/src/main/java/com/google/ar/core/examples/java/sharedcamera/SharedCameraActivity.java:1227-1251 | the delete button is hidden, then the sample takes the guarded step up or stays |
| SampleCounter.Counters.OnSampleMinus | trees/app/src/main/java/com/google/ar/core/examples/java/sharedcamera/SharedCameraActivity.java:1254-1278 | the sample takes the guarded step down or stays; reaching 0 enables the delete button |
| SampleCounter.Counters.IncrementCaptures | trees/app/src/main/java/com/google/ar/core/examples/java/sharedcamera/SharedCameraActivity.java:1301-1316 | the capture count goes up by one in Java int arithmetic, nothing else changes |
| ImageViewModel.DecrementAsWritten | trees/app/src/main/java/com/trees/model/ImageViewModel.java:51 | `Math.min(0, v − 1)` is never positive, and is 0 for every v above 1 |
| ImageViewModel.DecrementFromFive | trees/app/src/main/java/com/trees/model/ImageViewModel.java:51 | a sample number of 5 drops to 0, not to 4 |
| ImageViewModel.DecrementFloored | trees/app/src/main/java/com/trees/model/ImageViewModel.java:51 | `Math.max(0, v − 1)` is one step down from 1 or more and never below 0 |
| ImageViewModel.DecrementFlooredRepeated | trees/app/src/main/java/com/trees/model/ImageViewModel.java:50-53 | n corrected presses from v reach v − n, or 0 once n ≥ v, and never go below |
| ImageViewModel.ImageViewModel.constructor | trees/app/src/main/java/com/trees/model/ImageViewModel.java:28-39 | the capture counter and sample number come from the saved state when it holds them, else 0 and 1 |
| ImageViewModel.ImageViewModel.IncrementSampleNumber | trees/app/src/main/java/com/trees/model/ImageViewModel.java:45-48 | the sample number goes up by one (Java int) and is mirrored into the saved state; nothing else changes |
| ImageViewModel.ImageViewModel.DecrementSampleNumber | trees/app/src/main/java/com/trees/model/ImageViewModel.java:50-53 | as written: the sample number becomes `Math.min(0, v − 1)`, never positive, mirrored into the saved state |
| ImageViewModel.ImageViewModel.DecrementSampleNumberFloored | trees/app/src/main/java/com/trees/model/ImageViewModel.java:50-53 | corrected: one step down, never below 0, mirrored into the saved state |
| ImageViewModel.ImageViewModel.CaptureImage | trees/app/src/main/java/com/trees/model/ImageViewModel.java:59-62 | the processor's result becomes the current capture; no counter moves |
| ImageViewModel.ImageViewModel.StoreCapture | trees/app/src/main/java/com/trees/model/ImageViewModel.java:64-76 | the RGB, TOF and results saves run in that order under one (sample, capture) pair, stopping at the first that throws; the capture counter moves on by one either way and is mirrored |
| ImageViewModel.Attempted | trees/app/src/main/java/com/trees/model/ImageViewModel.java:67-73 | the store calls that run are those up to and including the one that throws |
| ImageViewModel.StoreCaptureOnePair | trees/app/src/main/java/com/trees/model/ImageViewModel.java:66-70 | whatever fails, every store call of one `storeCapture` names the same sample and capture |
| GalleryImageAdapter.CalculateInSampleSize | TreeLabeler/app/src/main/java/com/trees/android/treelabeler/GalleryImageAdapter.kt:39-57 | the factor is a power of two; 1 when the image is already within the request; otherwise the first power of two at which a half-dimension divided by it falls below the request, the previous one still fitting |
| GalleryImageAdapter.DoublingStaysInRange | TreeLabeler/app/src/main/java/com/trees/android/treelabeler/GalleryImageAdapter.kt:51-52 | while the loop condition holds for a request of at least 1, doubling the factor cannot overflow a Kotlin Int |
| OcclusionRenderer.Vertex | trees/app/src/main/java/com/google/ar/core/examples/java/common/rendering/OcclusionRenderer.java:140-142 | each vertex has three floats, the depth last |
| OcclusionRenderer.Points | trees/app/src/main/java/com/google/ar/core/examples/java/common/rendering/OcclusionRenderer.java:137-147 | three floats per positive sample among the inputs visited |
| OcclusionRenderer.Positives | trees/app/src/main/java/com/google/ar/core/examples/java/common/rendering/OcclusionRenderer.java:139-143 | the count of positive samples is at most the number of inputs |
| OcclusionRenderer.Packed | trees/app/src/main/java/com/google/ar/core/examples/java/common/rendering/OcclusionRenderer.java:136 | the vertex array has three floats per input |
| OcclusionRenderer.PointsStep | trees/app/src/main/java/com/google/ar/core/examples/java/common/rendering/OcclusionRenderer.java:139-145 | visiting input k adds its vertex and one to the count exactly when its sample is positive |
| OcclusionRenderer.PackRow | trees/app/src/main/java/com/google/ar/core/examples/java/common/rendering/OcclusionRenderer.java:138-146 | one row of the inner loop appends the vertex of every positive sample of the row and leaves the rest of the array zero |
| OcclusionRenderer.PutVertex | trees/app/src/main/java/com/google/ar/core/examples/java/common/rendering/OcclusionRenderer.java:140-142 | three floats are written at the index and nothing else changes |
| OcclusionRenderer.PackAll | trees/app/src/main/java/com/google/ar/core/examples/java/common/rendering/OcclusionRenderer.java:133-147 | the array built is the packed vertex array and the count is the number of positive samples among the width × height inputs |
| OcclusionRenderer.Renderer.constructor | trees/app/src/main/java/com/google/ar/core/examples/java/common/rendering/OcclusionRenderer.java:46-57 | dimensions start at −1, no points and no buffer |
| OcclusionRenderer.Renderer.GetDepthWidth | trees/app/src/main/java/com/google/ar/core/examples/java/common/rendering/OcclusionRenderer.java:179-181 | the getter returns the width |
| OcclusionRenderer.Renderer.SetDepthWidth | trees/app/src/main/java/com/google/ar/core/examples/java/common/rendering/OcclusionRenderer.java:183-185 | the setter changes only the width |
| OcclusionRenderer.Renderer.GetDepthHeight | trees/app/src/main/java/com/google/ar/core/examples/java/common/rendering/OcclusionRenderer.java:187-189 | the getter returns the height |
| OcclusionRenderer.Renderer.SetDepthHeight | trees/app/src/main/java/com/google/ar/core/examples/java/common/rendering/OcclusionRenderer.java:191-193 | the setter changes only the height |
| OcclusionRenderer.Renderer.Update | trees/app/src/main/java/com/google/ar/core/examples/java/common/rendering/OcclusionRenderer.java:132-153 | the buffer holds the packed vertices of the frame and `numPoints` the number of positive samples in the width × height inputs; the dimensions are unchanged |
| OcclusionRenderer.PositiveSampleSlot | trees/app/src/main/java/com/google/ar/core/examples/java/common/rendering/OcclusionRenderer.java:137-145 | the k-th positive sample in row-major order is the depth of the k-th vertex |
| OcclusionRenderer.PositivesMonotone | trees/app/src/main/java/com/google/ar/core/examples/java/common/rendering/OcclusionRenderer.java:143 | the count never decreases as more inputs are visited |
| OcclusionRenderer.UnsetDimensionsStoreNothing | trees/app/src/main/java/com/google/ar/core/examples/java/common/rendering/OcclusionRenderer.java:46-47 | with the dimensions still at −1, `update` stores no point: the buffer is all zeros |
| ArcoreSharedCamera.Decode | trees/app/src/main/java/com/google/ar/core/examples/java/sharedcamera/SharedCameraActivity.java:987-1005 | every entry holds the column, row, range in metres, confidence percentage and range / 10000 of the pixel in row-major order, read without a byte swap |
| ArcoreSharedCamera.DecodeRowMajor | trees/app/src/main/java/com/google/ar/core/examples/java/sharedcamera/SharedCameraActivity.java:987-1004 | pixel (x, y) is entry y * width + x |
| ArcoreSharedCamera.DepthAndOutput | trees/app/src/main/java/com/google/ar/core/examples/java/sharedcamera/SharedCameraActivity.java:995-1001 | the saved depth is ten times the render value, both within the 13-bit range |
| ArcoreSharedCamera.DecodedAll | trees/app/src/main/java/com/google/ar/core/examples/java/sharedcamera/SharedCameraActivity.java:987-1005 | once every pixel has been visited, the lists and the output array are exactly the decoded frame |
| ArcoreSharedCamera.DecodeFrame | trees/app/src/main/java/com/google/ar/core/examples/java/sharedcamera/SharedCameraActivity.java:984-1005 | the decode loop yields exactly the decoded frame |
| ArcoreSharedCamera.DecodeRow | trees/app/src/main/java/com/google/ar/core/examples/java/sharedcamera/SharedCameraActivity.java:988-1003 | the inner loop extends the decoded prefix by the pixels of row y |
| ArcoreSharedCamera.DecodePixel | trees/app/src/main/java/com/google/ar/core/examples/java/sharedcamera/SharedCameraActivity.java:990-1002 | one pass writes the pixel's entry and no other output cell |
| ArcoreSharedCamera.Activity.constructor | trees/app/src/main/java/com/google/ar/core/examples/java/sharedcamera/SharedCameraActivity.java:565-583 | the field initialisers and `onCreate`: nothing armed, nothing written, the renderer's dimensions unset, unset counters filled in (captures 0, sample 1) and delete enabled exactly for a saved sample of 0 |
| ArcoreSharedCamera.Activity.OnCaptureImage | trees/app/src/main/java/com/google/ar/core/examples/java/sharedcamera/SharedCameraActivity.java:1191-1202 | the capture is armed only with storage permission; nothing is written |
| ArcoreSharedCamera.Activity.SaveToFile | trees/app/src/main/java/com/google/ar/core/examples/java/sharedcamera/SharedCameraActivity.java:1294-1338 | the file is named after the current sample and the old capture count, the count moves on by one before writing, and the text is one "x,y,d,p" line per depth entry |
| ArcoreSharedCamera.Activity.OnImageAvailable | trees/app/src/main/java/com/google/ar/core/examples/java/sharedcamera/SharedCameraActivity.java:962-1020 | no image changes nothing; otherwise the renderer gets the packed frame, and an armed capture is saved and disarmed |
| ArcoreSharedCamera.CaptureFile | trees/app/src/main/java/com/google/ar/core/examples/java/sharedcamera/SharedCameraActivity.java:1302-1331 | the file name is the TOF capture name and its text the depth lines |
| LegacySharedCamera.Decode | app/src/main/java/com/google/ar/core/examples/java/sharedcamera/SharedCameraActivity.java:533-551 | one entry per pixel in row-major order: the pixel's x and y, the raw 16-bit sample read at row y/2 of the plane, its confidence percentage, and 0.0001 × its 13-bit range as the render value |
| LegacySharedCamera.RawSampleKept | app/src/main/java/com/google/ar/core/examples/java/sharedcamera/SharedCameraActivity.java:538-547 | the depth list keeps the whole sample (range and confidence bits), while the render value carries only the range |
| LegacySharedCamera.DecodedAll | app/src/main/java/com/google/ar/core/examples/java/sharedcamera/SharedCameraActivity.java:535-551 | once every pixel has been visited, the buffers and the output array are exactly the decoded frame |
| LegacySharedCamera.DecodeFrame | app/src/main/java/com/google/ar/core/examples/java/sharedcamera/SharedCameraActivity.java:533-551 | the nested loop fills a fresh output array and the four buffers with exactly the decoded frame |
| LegacySharedCamera.DecodeRow | app/src/main/java/com/google/ar/core/examples/java/sharedcamera/SharedCameraActivity.java:536-550 | one pass of the inner loop extends the decoded prefix by one full row |
| LegacySharedCamera.DecodePixel | app/src/main/java/com/google/ar/core/examples/java/sharedcamera/SharedCameraActivity.java:538-548 | one pixel writes its render value at index y·width + x and nothing else in the array |
| LegacySharedCamera.RawLines | app/src/main/java/com/google/ar/core/examples/java/sharedcamera/SharedCameraActivity.java:767-776 | the file holds one line per depth entry, built from the four buffers at the same index |
| LegacySharedCamera.RawLineReadsBack | app/src/main/java/com/google/ar/core/examples/java/sharedcamera/SharedCameraActivity.java:768-775 | a line splits on ',' into four fields whose first three parse back as x, y and the raw sample |
| LegacySharedCamera.Activity.constructor | app/src/main/java/com/google/ar/core/examples/java/sharedcamera/SharedCameraActivity.java:750 | the screen starts with no capture armed, the counter at 0 and no files |
| LegacySharedCamera.Activity.OnCaptureImage | app/src/main/java/com/google/ar/core/examples/java/sharedcamera/SharedCameraActivity.java:739-748 | without storage permission nothing changes; with it the next frame's save is armed |
| LegacySharedCamera.Activity.SaveToFile | app/src/main/java/com/google/ar/core/examples/java/sharedcamera/SharedCameraActivity.java:751-789 | the file is named after the counter's old value, the counter moves on by one (with 32-bit wrap-around) even when the write fails, and a written file holds the lines of the buffers |
| LegacySharedCamera.Activity.OnImageAvailable | app/src/main/java/com/google/ar/core/examples/java/sharedcamera/SharedCameraActivity.java:512-560 | no image changes nothing; an image is decoded and handed to the renderer, and an armed capture saves exactly the decoded buffers and disarms |
| LegacySharedCamera.CaptureText | app/src/main/java/com/google/ar/core/examples/java/sharedcamera/SharedCameraActivity.java:765-776 | the builder's text is the lines of the buffers, each ended by a newline |
| LegacySharedCamera.AppendRawLine | app/src/main/java/com/google/ar/core/examples/java/sharedcamera/SharedCameraActivity.java:768-775 | one iteration's seven appends add exactly one line and its newline |
| LegacySharedCamera.CaptureFile | app/src/main/java/com/google/ar/core/examples/java/sharedcamera/SharedCameraActivity.java:761-777 | a saved file is "/Capture_" and the capture number, holding the capture's lines |
| LegacySharedCamera.CaptureNamesDistinct | app/src/main/java/com/google/ar/core/examples/java/sharedcamera/SharedCameraActivity.java:761 | different capture numbers give different file names, so no capture overwrites another |
| CaptureActivities.SaveOf | trees/app/src/main/java/com/trees/activities/SharedCameraActivity.java:307-349 | a capture's file of each type carries that type and the capture's own sample and capture numbers; depth lines use the `Float.toString` formatter and matrix lines the `DecimalFormat("#.##########")` one |
| CaptureActivities.Part | trees/app/src/main/java/com/trees/activities/SharedCameraActivity.java:307-349 | a file of a given type is produced exactly when its image or matrices are held and its save does not throw |
| CaptureActivities.CaptureSavesNamed | trees/app/src/main/java/com/trees/activities/SharedCameraActivity.java:305-349 | every file saved by one capture carries the one (sample, capture) pair; each type is present exactly when it is written; the types come in depth, image, matrix order |
| CaptureActivities.CaptureSavesDistinct | trees/app/src/main/java/com/trees/activities/SharedCameraActivity.java:312-343 | the files of one capture never share a name, and none has the name of a file of another capture |
| CaptureActivities.SharedCamera.constructor | trees/app/src/main/java/com/trees/activities/SharedCameraActivity.java:150-165 | the screen starts with no frame, images, matrices or files; `onCreate` fills in unset counters (captures 0, sample 1), keeps set ones, and enables delete exactly for a saved sample of 0 |
| CaptureActivities.SharedCamera.OnActivityResult | trees/app/src/main/java/com/trees/activities/SharedCameraActivity.java:254-259 | only the preview screen's OK arms the capture; nothing else changes |
| CaptureActivities.SharedCamera.OnCaptureImage | trees/app/src/main/java/com/trees/activities/SharedCameraActivity.java:278-293 | without a frame nothing changes; with one the colour image and the (possibly missing) depth image are acquired |
| CaptureActivities.SharedCamera.ExtractImageData | trees/app/src/main/java/com/trees/activities/SharedCameraActivity.java:297-357 | a null frame changes nothing; not capturing records the frame and matrices; capturing saves the held files under the stored (sample, capture), bumps the capture count by one and disarms |
| CaptureActivities.SharedCamera.SaveCapture | trees/app/src/main/java/com/trees/activities/SharedCameraActivity.java:305-355 | the capturing branch appends exactly the capture's files and changes only the capture count among the preferences |
| CaptureActivities.SharedCamera.Saves | trees/app/src/main/java/com/trees/activities/SharedCameraActivity.java:307-349 | the three guarded saves produce, in order, exactly the capture's files |
| CaptureActivities.SharedCamera.SavePart | trees/app/src/main/java/com/trees/activities/SharedCameraActivity.java:307-349 | one guarded save produces its file exactly when its guard holds and it does not throw |
| CaptureActivities.SharedCamera.Save | trees/app/src/main/java/com/trees/activities/SharedCameraActivity.java:312-344 | each save writes its type's file under the stored numbers, with the depth text (`Float.toString`) or the matrix text (`DecimalFormat`) when the data is held |
| CaptureActivities.ImageCapture.constructor | trees/app/src/main/java/com/trees/activities/ImageCaptureActivity.java:145-160 | the screen starts with no frame; `onCreate` fills in unset counters (captures 0, sample 1), keeps set ones, and enables delete exactly for a saved sample of 0 |
| CaptureActivities.ImageCapture.OnCaptureImage | trees/app/src/main/java/com/trees/activities/ImageCaptureActivity.java:266-309 | without a frame nothing changes; with one only the capture count moves on by one |
| ImageStore.Suffix | trees/app/src/main/java/com/trees/common/helpers/ImageStore.java:42-56 | only the depth file has no suffix; the others have a single extension starting with '.' |
| ImageStore.FileName | trees/app/src/main/java/com/trees/common/helpers/ImageStore.java:41-59 | a name is the shared stem of its capture followed by its type's suffix |
| ImageStore.NoSeparatorInNumber | trees/app/src/main/java/com/trees/common/helpers/ImageStore.java:57 | a decimal number holds none of the separators '_', '.', ',' or newline that the names and lines rely on |
| ImageStore.FileNameInjective | trees/app/src/main/java/com/trees/common/helpers/ImageStore.java:41-59 | a file name determines its sample, its capture and its type |
| ImageStore.CaptureNamesDistinct | trees/app/src/main/java/com/trees/common/helpers/ImageStore.java:41-59 | the depth, image and matrix files of one capture have three different names |
| ImageStore.TofLineFields | trees/app/src/main/java/com/trees/common/helpers/ImageStore.java:73-79 | a depth line is its four fields x, y, depth and percentage joined by commas |
| ImageStore.TofLines | trees/app/src/main/java/com/trees/common/helpers/ImageStore.java:72-81 | one line per entry of the depth buffer, built from the four buffers at the same index |
| ImageStore.SaveToFileTOF | trees/app/src/main/java/com/trees/common/helpers/ImageStore.java:61-88 | the depth file is named after its capture and its text is the buffers' lines, each ended by a newline |
| ImageStore.AppendTofLine | trees/app/src/main/java/com/trees/common/helpers/ImageStore.java:73-80 | one iteration's appends add exactly one line and its newline |
| ImageStore.TofLineTokens | trees/app/src/main/java/com/trees/common/helpers/ImageStore.java:73-79 | a depth line splits back into exactly the four fields that were appended |
| ImageStore.TofTextLines | trees/app/src/main/java/com/trees/common/helpers/ImageStore.java:70-82 | a depth file's text reads back, line by line, as the lines that were written |
| ImageStore.MatrixFields | trees/app/src/main/java/com/trees/common/helpers/ImageStore.java:121-126 | splitting a matrix line on ',' gives one field per element, each after the first led by the space of the ", " separator |
| ImageStore.MatrixLineFields | trees/app/src/main/java/com/trees/common/helpers/ImageStore.java:121-126 | a matrix line splits back into exactly its elements' fields |
| ImageStore.SaveToFileMatrix | trees/app/src/main/java/com/trees/common/helpers/ImageStore.java:108-142 | the matrix file is named after its capture and holds two lines: the projection elements, then the view elements |
| ImageStore.PrintRow | trees/app/src/main/java/com/trees/common/helpers/ImageStore.java:121-126 | one printing loop emits the elements separated by ", " with nothing before the first |
| Yuv.Bytes | trees/app/src/main/java/com/trees/common/helpers/ImageUtil.java:46-48 | a plane's buffer holds exactly its length in bytes |
| Yuv.RowsAt | trees/app/src/main/java/com/trees/common/helpers/ImageUtil.java:59-64 | NV21 byte r·width + c of the row-by-row copy is the plane byte at r·step + c |
| Yuv.RowsNext | trees/app/src/main/java/com/trees/common/helpers/ImageUtil.java:60-64 | each pass of the Y loop appends the next width bytes, read from the row's offset |
| Yuv.YPart | trees/app/src/main/java/com/trees/common/helpers/ImageUtil.java:55-65 | the Y part has exactly width × height bytes, whichever branch copies it |
| Yuv.Pairs | trees/app/src/main/java/com/trees/common/helpers/ImageUtil.java:93-94 | the interleave writes one V/U pair per 2 × 2 block, never more than uvSize pairs |
| Yuv.RowsPairs | trees/app/src/main/java/com/trees/common/helpers/ImageUtil.java:93-99 | the chroma rows written so far hold two bytes per column |
| Yuv.InterleavedAt | trees/app/src/main/java/com/trees/common/helpers/ImageUtil.java:93-99 | the pair for chroma pixel (row, col) sits at slot row·(width/2) + col: its V byte first, then its U byte, both read at col·pixelStride + row·rowStride |
| Yuv.PairAt | trees/app/src/main/java/com/trees/common/helpers/ImageUtil.java:95-97 | every position the loop reads lies in both chroma buffers, and each column appends its V byte then its U byte |
| Yuv.Chroma | trees/app/src/main/java/com/trees/common/helpers/ImageUtil.java:67-100 | failing the guard leaves the chroma half zero; the shortcut copies uvSize V bytes and leaves the rest zero; otherwise the interleave fills 2·pairs bytes and the rest stays zero |
| Yuv.NV21 | trees/app/src/main/java/com/trees/common/helpers/ImageUtil.java:37-101 | the array has ySize + 2·uvSize bytes (a Java int), the Y part first and the chroma part after it |
| Yuv.Assembled | trees/app/src/main/java/com/trees/common/helpers/ImageUtil.java:44-101 | an array holding the Y part and then the chroma part is the NV21 array |
| Yuv.Get | trees/app/src/main/java/com/trees/common/helpers/ImageUtil.java:56 | a bulk `get` copies count bytes from the buffer to the array at pos and leaves the rest of the array as it was |
| Yuv.CopyRow | trees/app/src/main/java/com/trees/common/helpers/ImageUtil.java:61-62 | one row copy extends the copied rows by one and leaves the chroma half untouched |
| Yuv.FillChroma | trees/app/src/main/java/com/trees/common/helpers/ImageUtil.java:67-100 | the chroma half ends up as the chroma function of the frame, the Y half and the V plane are as they were |
| Yuv.CopyV | trees/app/src/main/java/com/trees/common/helpers/ImageUtil.java:80 | when the shortcut is taken, the chroma half becomes uvSize V bytes followed by zeros, the Y half untouched |
| Yuv.Probe | trees/app/src/main/java/com/trees/common/helpers/ImageUtil.java:73-88 | the probe answers whether U saw the write to V, and V is restored whatever the answer |
| Yuv.ProbeMeansAliased | trees/app/src/main/java/com/trees/common/helpers/ImageUtil.java:73-78 | a probe that sees its own write means the U buffer is the V buffer moved on by one byte |
| Yuv.Interleave | trees/app/src/main/java/com/trees/common/helpers/ImageUtil.java:93-99 | the nested loop writes exactly the interleave after the Y bytes, with zeros after it |
| Yuv.InterleaveNextRow | trees/app/src/main/java/com/trees/common/helpers/ImageUtil.java:93-99 | one pass of the outer loop appends the next chroma row's pairs and leaves the Y half alone |
| Yuv.InterleaveRow | trees/app/src/main/java/com/trees/common/helpers/ImageUtil.java:94-98 | the inner loop writes that row's pairs and nothing outside them |
| Yuv.ReadPair | trees/app/src/main/java/com/trees/common/helpers/ImageUtil.java:95-97 | a column reads the V byte and the U byte at the same position |
| Yuv.AsWrittenStepMisreadsRows | trees/app/src/main/java/com/trees/common/helpers/ImageUtil.java:59-64 | with a 4-byte Y row stride on a 2 × 2 image the as-written step copies [1, 2, 9, 9] where the pixels are [1, 2, 3, 4] |
| Yuv.IntendedRowsArePixels | trees/app/src/main/java/com/google/ar/core/examples/java/sharedcamera/ImageUtil.java:50-56 | with the intended step every NV21 Y byte is its own pixel's byte, whichever branch copies it |
| Yuv.AsWrittenShortcutDropsU | trees/app/src/main/java/com/trees/common/helpers/ImageUtil.java:80 | on an aliased 2 × 2 frame the shortcut produces chroma [5, 0] where the interleave produces [5, 7] |
| Yuv.ShortcutIntended | trees/app/src/main/java/com/trees/common/helpers/ImageUtil.java:80 | the intended shortcut copies 2·uvSize bytes |
| Yuv.ShortcutIntendedInterleaves | trees/app/src/main/java/com/trees/common/helpers/ImageUtil.java:73-99 | with even dimensions and aliased planes that pass the guard, copying 2·uvSize bytes from V's start gives exactly the interleave |
| Yuv.PackedPair | trees/app/src/main/java/com/trees/common/helpers/ImageUtil.java:93-99 | with pixel stride 2 and rows as wide as the image, pair k is read at position 2k |
| HelpersImageUtil.ImageToByteArray | trees/app/src/main/java/com/trees/common/helpers/ImageUtil.java:27-35 | null exactly for a format other than YUV_420_888; otherwise the JPEG of the frame's NV21 bytes, and the V plane is unchanged |
| HelpersImageUtil.YUV420888ToNV21 | trees/app/src/main/java/com/trees/common/helpers/ImageUtil.java:37-102 | the result is a fresh array holding the NV21 bytes of the frame, and the image is unchanged |
| HelpersImageUtil.CopyY | trees/app/src/main/java/com/trees/common/helpers/ImageUtil.java:55-65 | the Y half receives the Y part as written, and the chroma half is untouched |
| HelpersImageUtil.CopyYRows | trees/app/src/main/java/com/trees/common/helpers/ImageUtil.java:58-64 | the row loop, with `yBufferPos` growing by rowStride − width, copies row r from offset r·(rowStride − width) |
| HelpersImageUtil.CopyYRowsIntended | trees/app/src/main/java/com/trees/common/helpers/ImageUtil.java:58-64 | the same loop with `yBufferPos` growing by rowStride copies row r from offset r·rowStride, where the plane keeps it |
| SharedCameraImageUtil.ImageToByteArray | trees/app/src/main/java/com/google/ar/core/examples/java/sharedcamera/ImageUtil.java:19-27 | null exactly for a format other than YUV_420_888; otherwise the JPEG of the frame's NV21 bytes |
| SharedCameraImageUtil.YUV420888ToNV21 | trees/app/src/main/java/com/google/ar/core/examples/java/sharedcamera/ImageUtil.java:29-93 | the result is a fresh array holding the NV21 bytes of the frame, and the image is unchanged |
| SharedCameraImageUtil.CopyY | trees/app/src/main/java/com/google/ar/core/examples/java/sharedcamera/ImageUtil.java:47-57 | the Y half receives the Y part as written, and the chroma half is untouched |
| SharedCameraImageUtil.CopyYRows | trees/app/src/main/java/com/google/ar/core/examples/java/sharedcamera/ImageUtil.java:50-56 | the row loop, whose position starts at width − rowStride and grows before each read, copies row r from offset r·(rowStride − width) as the helpers copy does |
| CaptureIndex.DepthCaptures | OfflineProcessing/v2_DepthAssistedSegmentation/RGBD.py:240 | the comprehension keeps only names that start with the sample prefix and end in neither ".txt" nor ".jpeg", and it keeps every such name |
| CaptureIndex.Parsed | OfflineProcessing/v2_DepthAssistedSegmentation/RGBD.py:244-247 | every listed name is read on its own, one result per name |
| CaptureIndex.GroupSnoc | OfflineProcessing/v2_DepthAssistedSegmentation/RGBD.py:248-250 | one more name extends only its own sample's list, creating the list the first time the sample is seen |
| CaptureIndex.GroupComplete | OfflineProcessing/v2_DepthAssistedSegmentation/RGBD.py:244-250 | a capture is in a sample's list exactly when some listed name carries that sample and capture |
| CaptureIndex.CapturesAbsent | OfflineProcessing/v2_DepthAssistedSegmentation/RGBD.py:248-249 | a sample no name carries has no captures |
| CaptureIndex.NumbersFailFrom | OfflineProcessing/v2_DepthAssistedSegmentation/RGBD.py:245-247 | once a name fails to parse, the whole listing fails |
| CaptureIndex.NumbersSnoc | OfflineProcessing/v2_DepthAssistedSegmentation/RGBD.py:244-247 | one more name either appends its numbers to the listing or makes it fail |
| CaptureIndex.NumbersOfParsed | OfflineProcessing/v2_DepthAssistedSegmentation/RGBD.py:244-247 | names that each parse give exactly their numbers, in listing order |
| CaptureIndex.AddCapture | OfflineProcessing/v2_DepthAssistedSegmentation/RGBD.py:248-250 | the append step keeps the dictionary equal to the grouping of the names seen so far |
| CaptureIndex.IndexCaptures | OfflineProcessing/v2_DepthAssistedSegmentation/RGBD.py:244-250 | the loop fails exactly when some name does not parse; otherwise it builds the grouping of all the names' numbers |
| CaptureRoundTrip.NumberEndsInDigit | trees/app/src/main/java/com/trees/common/helpers/ImageStore.java:57 | a decimal number ends in a digit, so a depth file name does too |
| CaptureRoundTrip.DigitEndingKept | OfflineProcessing/v2_DepthAssistedSegmentation/RGBD.py:240 | a name ending in a digit has neither extension the scripts skip |
| CaptureRoundTrip.OnlyDepthFilesKept | OfflineProcessing/v2_DepthAssistedSegmentation/RGBD.py:240 | of the three files the app writes for a capture, the scripts' filter keeps the depth file and skips the image and matrix files |
| CaptureRoundTrip.DepthFileKept | OfflineProcessing/v2_DepthAssistedSegmentation/RGBD.py:240 | the depth file the app names passes the scripts' filter |
| CaptureRoundTrip.DepthNameParses | OfflineProcessing/v2_DepthAssistedSegmentation/RGBD.py:245-247 | the last two '_'-fields of a depth file name read back as its sample and capture, negative numbers included |
| CaptureRoundTrip.ListingIndexed | OfflineProcessing/v2_DepthAssistedSegmentation/RGBD.py:244-250 | a listing of depth files written for any captures reads back as exactly those captures, in order |
| CaptureRoundTrip.Names | trees/app/src/main/java/com/trees/common/helpers/ImageStore.java:41-59 | the listing holds one depth file name per capture, in the same order |
| CaptureRoundTrip.DepthLineConverts | PclProcessing/pcd_write.cpp:83-94 | a line the app writes for pixel (x, y) is read as that pixel and its depth, provided `stof` reads decimal integers back and reads this line's formatted depth back as the depth (and its percentage as some number); the confidence is ignored |
| CaptureRoundTrip.DepthFileConverts | PclProcessing/pcd_write.cpp:83-95 | every line of a depth file the app writes gives a point, point k being that of pixel (xs[k], ys[k]) at depth ds[k], provided `stof` reads integers back and reads each written depth back exactly |
| PcdWrite.Cloud.constructor | PclProcessing/pcd_write.cpp:24-41 | the cloud is 180 × 240, not dense, with that many default points, the sensor at the origin and orientation (w, x, y, z) = (0, 1, 0, 0) |
| PcdWrite.PointXYZFromDepth | PclProcessing/pcd_write.cpp:45-67 | a depth of 0 gives the NaN point; any other depth gives a numeric point whose z is the depth |
| PcdWrite.PointXYZProjects | PclProcessing/pcd_write.cpp:50-65 | the camera intrinsics project a point back to the pixel (u, v) it came from |
| PcdWrite.Floats | PclProcessing/pcd_write.cpp:84-88 | the numbers of a line exist exactly when every token converts, and each is its token's value |
| PcdWrite.LineValues | PclProcessing/pcd_write.cpp:84-88 | the token loop yields the line's numbers, or the conversion failure |
| PcdWrite.FloatsFailFrom | PclProcessing/pcd_write.cpp:86-88 | one token that does not convert makes the whole line fail |
| PcdWrite.ReadLine | PclProcessing/pcd_write.cpp:84-91 | a line gives its first three numbers, too-few-values, or an invalid number |
| PcdWrite.ConvertStep | PclProcessing/pcd_write.cpp:83-95 | each line either adds its point or ends the conversion with its own error (with the line index for too few values) |
| PcdWrite.ConvertFailFrom | PclProcessing/pcd_write.cpp:83-91 | a failure on a line is the failure of the whole file |
| PcdWrite.ConvertPoints | PclProcessing/pcd_write.cpp:83-96 | the file converts exactly when every line gives a point, and point k is that of line k |
| PcdWrite.ConvertFirstFailure | PclProcessing/pcd_write.cpp:83-91 | a failure is that of the first line that gives no point |
| PcdWrite.Consumed | PclProcessing/pcd_write.cpp:83 | the loop reads all the lines, or stops when the cloud's points are full |
| PcdWrite.FillPoints | PclProcessing/pcd_write.cpp:78-96 | the read loop fails exactly when the lines it reads fail to convert; otherwise the cloud holds their points followed by default points |
| PcdWrite.WritePcd | PclProcessing/pcd_write.cpp:69-104 | a missing file throws "not found"; otherwise the cloud is filled from the lines read, or the first bad line's error is thrown |
| PcdWrite.PcdWriteCommand | PclProcessing/pcd_write.cpp:107-124 | "-h" prints the usage; any argument count but 3 prints the usage; otherwise the input file is converted |
| RgbdTesting.Truncate | OfflineProcessing/v2_DepthAssistedSegmentation/RGBD_testing.py:88-89 | `astype(int)` truncates toward zero: the result's magnitude is within 1 below the value's, and non-negative values stay non-negative |
| RgbdTesting.AxisIndex | OfflineProcessing/v2_DepthAssistedSegmentation/RGBD_testing.py:98-99 | an index is accepted exactly from −n to n − 1, a negative one counting from the end |
| RgbdTesting.LastHit | OfflineProcessing/v2_DepthAssistedSegmentation/RGBD_testing.py:97-99 | the value a cell ends with comes from a line that writes that cell |
| RgbdTesting.Matrix | OfflineProcessing/v2_DepthAssistedSegmentation/RGBD_testing.py:94-99 | both matrices are 180 × 240 |
| RgbdTesting.LastHitIs | OfflineProcessing/v2_DepthAssistedSegmentation/RGBD_testing.py:97-99 | the last line that writes a cell decides its value |
| RgbdTesting.LastHitNone | OfflineProcessing/v2_DepthAssistedSegmentation/RGBD_testing.py:94-99 | a cell keeps its 0 exactly when no line writes it |
| RgbdTesting.FillMatrices | OfflineProcessing/v2_DepthAssistedSegmentation/RGBD_testing.py:94-99 | the fill raises IndexError exactly when some line's coordinates fall outside the matrix; otherwise each cell holds its last write, or 0 |
| RgbdTesting.NonZero | OfflineProcessing/v2_DepthAssistedSegmentation/RGBD_testing.py:110-112 | a row contributes exactly its non-zero values |
| RgbdTesting.CenterValuesMember | OfflineProcessing/v2_DepthAssistedSegmentation/RGBD_testing.py:106-112 | a value is collected exactly when it is a non-zero entry of the centre third of the upsampled depth matrix |
| RgbdTesting.CenterValues | OfflineProcessing/v2_DepthAssistedSegmentation/RGBD_testing.py:106-112 | the double loop collects the centre third's non-zero entries row by row |
| RgbdTesting.Distinct | OfflineProcessing/v2_DepthAssistedSegmentation/RGBD_testing.py:115-117 | the dictionary's keys are exactly the collected values, each once in first-seen order |
| RgbdTesting.Tally | OfflineProcessing/v2_DepthAssistedSegmentation/RGBD_testing.py:115-117 | every collected value is counted, with its number of occurrences, and keys keep first-seen order |
| RgbdTesting.FirstMaximal | OfflineProcessing/v2_DepthAssistedSegmentation/RGBD_testing.py:118 | `max` over the items returns a key of greatest count, the first such in key order |
| RgbdTesting.MostFrequent | OfflineProcessing/v2_DepthAssistedSegmentation/RGBD_testing.py:114-118 | no values raises; otherwise the result occurs at least as often as any other value, and among values that occur equally often it is the first to appear |
| RgbdTesting.Window | OfflineProcessing/v2_DepthAssistedSegmentation/RGBD_testing.py:126-130 | a filtered cell keeps its depth when it lies within [min, max] and is 0 otherwise |
| RgbdTesting.WindowIsNearMode | OfflineProcessing/v2_DepthAssistedSegmentation/RGBD_testing.py:121-130 | the test script's window of ±10% around the trunk depth is the same filter `RGBD.py` uses |
| RgbdTesting.WindowFilter | OfflineProcessing/v2_DepthAssistedSegmentation/RGBD_testing.py:126-130 | the double loop produces exactly that window |
| RgbdTesting.FrameOf | OfflineProcessing/v2_DepthAssistedSegmentation/RGBD_testing.py:101-103 | the upsampled depth matrix is 360 × 480 |
| RgbdTesting.DepthMode | OfflineProcessing/v2_DepthAssistedSegmentation/RGBD_testing.py:87-121 | out-of-range coordinates raise IndexError; no centre value raises ValueError; otherwise the trunk depth is a most frequent centre value |
| RgbdTesting.Measure | OfflineProcessing/v2_DepthAssistedSegmentation/RGBD_testing.py:121-215 | the second half always returns a measurement: the edges of the rotated mask of the ±10% window, the width estimated from them, its error, and the percentage error, which a width of 0 leaves infinite or undefined instead of raising |
| RgbdTesting.RunSample | OfflineProcessing/v2_DepthAssistedSegmentation/RGBD_testing.py:78-215 | IndexError exactly when a point falls outside the matrices, ValueError exactly when no centre value is non-zero, and a measurement in every other case, a width of 0 included; the trunk depth is the mode of the centre values and the error and percent are those of the width estimated from the edges |
| RgbdTesting.SampleAttempts | OfflineProcessing/v2_DepthAssistedSegmentation/RGBD_testing.py:240-241 | a sample in the listing is run once per listed capture; a sample not listed is not run |
| RgbdTesting.AttemptsMember | OfflineProcessing/v2_DepthAssistedSegmentation/RGBD_testing.py:239-244 | a run is attempted for (sample, capture, width) exactly when the table holds the sample with that width and the listing holds that capture of the sample |
| RgbdTesting.KeptRuns | OfflineProcessing/v2_DepthAssistedSegmentation/RGBD_testing.py:243-248 | a raising run is skipped: at most one result per run, one per run exactly when none raises, and each result comes from a run |
| RgbdTesting.KeptSnoc | OfflineProcessing/v2_DepthAssistedSegmentation/RGBD_testing.py:243-248 | one more run appends its result, or nothing when it raises |
| RgbdTesting.FirstsSecondsSnoc | OfflineProcessing/v2_DepthAssistedSegmentation/RGBD_testing.py:245-246 | the error and percent lists grow together, one value each per result |
| RgbdTesting.RunCaptures | OfflineProcessing/v2_DepthAssistedSegmentation/RGBD_testing.py:241-248 | the capture loop of one sample appends the results of its runs, in listing order |
| RgbdTesting.Summarise | OfflineProcessing/v2_DepthAssistedSegmentation/RGBD_testing.py:239-248 | the two lists hold the errors and percents of every run that did not raise, in table and listing order |
| RgbdTesting.TestSamples | OfflineProcessing/v2_DepthAssistedSegmentation/RGBD_testing.py:221-248 | a name that does not parse stops the script; otherwise the lists the summary is drawn from are those of the runs of every listed capture of every sample in the width table |

## Left out

- Android lifecycle, camera sessions, permission requests, GL drawing and threading are not modelled. Preferences are a `map`, and an image is a value with its planes.
- The app's overview describes the width estimation as delegated to a Python module outside the repository. `processor.py` and `improc.py` are in the repository, so the model follows their code. Only the `get_estimated_width` formula, which is numerical, stays a parameter.
- The renderer's GL buffer upload is left out; it is GL work only.
- `onDeleteData`, `deleteFiles` and `getOrCreateFile` are left out because they only touch the file system. `FileWriter` writing, `flush` and `close` are I/O; a file is modelled as the lines written to it.
- `ImageStoreHelper` is the same code as `ImageStore`, so the `ImageStore` module stands for both.
- `ImageStoreHelper.saveToFileRGB`, `Bitmap.compress` and the NV21 → JPEG encoding are parameters, because they call into Android.
- The trees capture activity's three-argument `saveToFileTOF` call and `TofUtil`'s buffer assembly for it are not part of this model. Those buffers enter as a parameter.
- `ImageCaptureActivity.arFrame` is never assigned in the source, so `onCaptureImage` always returns early. The model keeps that behaviour.
- In the legacy `SharedCameraActivity`, the renderer update is returned as the method's output rather than drawn.
- numpy and scipy steps are parameters: the modal bin of `stats.mode`, the angles `arctan2` gives for PCA's components, `ndimage.rotate`, trigonometry and `get_estimated_width`. PCA's only failure modelled is its ValueError for fewer than two samples. Plotting, the RGB image and file reading are also left out.
- `processor.py` takes `np.arctan2(*pca.components_)`, the angle of each column of the component matrix, while its comments speak of the angle of each eigenvector (a row). PCA's choice of sign for an eigenvector can therefore change the rotation it picks. The model follows the code and takes the two entries as parameters; it does not model the eigenvectors themselves, so it states no property about that sign choice.
- RgbdTesting.TestSamples: stops before the error summary of `RGBD_testing.py` (lines 250-270), whose histograms and table are plotting. It returns the two lists, even empty ones; the script's `statistics.mean` and `statistics.median` (lines 262-266) raise StatisticsError on an empty list, which happens when no capture is listed or every run raises, and the model does not capture that exception.
- The summary loop of `RGBD.py` over the widths dictionary and its CSV output are left out. They depend on dictionary iteration order and on float formatting.
- The `ConvexHull` step of `RGBD_testing.py` is left out. It is scipy geometry and may raise on empty or degenerate point sets.
- Saving the point cloud file in `pcd_write.cpp` and its message on standard error are left out; they are I/O.
- Float rounding is not modelled: values are exact reals, and formatting and parsing are parameters. The NaN that `genfromtxt` yields for a bad field is left out.
- The pinhole projection in `pcd_write.cpp` uses exact reals, not single-precision floats.
- A capture name without '_' makes the Python scripts raise IndexError. The model gives None for it, the same outcome as a ValueError.
- GalleryImageAdapter.CalculateInSampleSize: requires reqHeight ≥ 1 or reqWidth ≥ 1. With both ≤ 0 the Kotlin loop doubles the factor until it wraps to 0 and then divides by zero; the only caller passes 25 and 25.
- ArcoreSharedCamera.Activity.OnImageAvailable: requires that the renderer's array fits the frame. A smaller array makes the source throw ArrayIndexOutOfBoundsException.
- ImageViewModel.ImageViewModel.StoreCapture: requires a current capture. The source dereferences it and fails on the null reference without one.
- OcclusionRenderer.Renderer.Update: requires at least width·height depth values, which the source's indexing demands.
- Improc.RunFrame: besides the values `run` returns, its result exposes the frame, the mode depth, the filtered frame, the angle and the edges, which `run` computes and discards, so that the contract can speak about them.
- ImageStore.TofLineFields, ImageStore.MatrixLineFields: assume that the number formatters never write ',' or a newline (the `CsvField` predicate). That holds in the default locale; under a locale with a decimal comma, `DecimalFormat` writes "0,5" and a matrix line gains fields.
- DepthImage.Readable: requires dimensions of at most 0x7FFF and every read position inside the plane. Past those bounds the `short` loop counters wrap and the buffer read throws IndexOutOfBoundsException; neither is modelled, and camera frames stay within the bounds. LegacySharedCamera.DecodeFrame and LegacySharedCamera.Decode inherit the 0x7FFF bound although the legacy loops count with `int`, so for them it restricts more than the source does.
- Decimal.ParseInt: models `int` on ASCII text only. Python also strips non-ASCII white space and reads non-ASCII decimal digits; the texts parsed here are parts of file names that `Integer.toString` wrote.
- TrunkScan.BinaryMajority: states the majority test only for 0/1 columns. `np.bincount` raises on negative values, and that case is not modelled.

## Findings

| source | as written | input that shows it | evidently intended | confidence | as-written member | corrected member |
|---|---|---|---|---|---|---|
| trees/app/src/main/java/com/trees/common/helpers/ImageUtil.java:59-64 | after each Y row, `yBufferPos += rowStride - width`, so row r is read from offset r·(rowStride − width) | 2 × 2 image, Y row stride 4, Y plane [1, 2, 9, 9, 3, 4, 9, 9]: Y bytes [1, 2, 9, 9] instead of [1, 2, 3, 4] | row r read from offset r·rowStride | not executed | Yuv.AsWrittenStepMisreadsRows | HelpersImageUtil.CopyYRowsIntended |
| trees/app/src/main/java/com/google/ar/core/examples/java/sharedcamera/ImageUtil.java:50-56 | the same step in the second copy: the position starts at width − rowStride and grows by rowStride − width | the same 2 × 2 frame with row stride 4 | row r read from offset r·rowStride | not executed | SharedCameraImageUtil.CopyYRows | Yuv.IntendedRowsArePixels |
| trees/app/src/main/java/com/trees/common/helpers/ImageUtil.java:80 | when the V and U planes alias, the shortcut copies only uvSize bytes of the interleaved chroma | aliased 2 × 2 frame with V = [5, 7] and U = [7]: chroma [5, 0] instead of [5, 7] | copy 2·uvSize bytes (V and U interleaved) | not executed | Yuv.AsWrittenShortcutDropsU | Yuv.ShortcutIntendedInterleaves |
| trees/app/src/main/java/com/trees/model/ImageViewModel.java:51 | `Math.min(0, v - 1)` as the decremented sample number | v = 5 gives 0 | `Math.max(0, v - 1)`, giving 4 | not executed | ImageViewModel.DecrementFromFive | ImageViewModel.DecrementFlooredRepeated |
