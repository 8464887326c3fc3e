# Modified CIoU loss and image list generators, in Dafny

This project models two parts of a small object-detection repository.

**`cioum.dfy` (module `Cioum`)** models `cioum.c`.
- `box_iou` computes the intersection over union of two axis-aligned boxes. It first clips the boxes with `fmax`/`fmin`. It returns 0 when the clipped box is empty along either axis, and 0 when the union area is not positive.
- `euclidean_distance_squared`, `float_min` and `float_max` are also modelled.
- `ciou_loss_modified` is a loop over `num_boxes` pairs of prediction and target boxes. It returns the mean of the per-pair losses, or 0 when `num_boxes` is 0. Each pair's loss is `1 - (iou - center_penalty - w_aspect * aspect_penalty)`, where:
  - `center_penalty` is the squared distance between the two centers divided by the squared diagonal of the enclosing box plus `1e-7`;
  - `aspect_penalty` is `|w_p/(h_p + 1e-7) - w_t/(h_t + 1e-7)|`.
- The parameter `w_center` is accepted but never read. The model keeps that as written: `CiouLossModified` takes `wCenter`, and its result is tied to `MeanLoss`, which has no such parameter.
- The arrays stay `array`s. The method has no `modifies` clause, just as the C function never writes through its pointers.
- The per-pair computation is specified by the functions `BoxIou`, `CenterPenalty`, `AspectPenalty` and `PairLoss`. The batch is specified by the definitions `PairLosses` (the loss of each pair, in order), `Sum`, `Mean` and `MeanLoss`.
- Arithmetic is over exact reals.

**`image_lists.dfy` (module `ImageLists`)** models `generate_train.py`, `generate_test.py` and `generate_val.py`.
- The three scripts differ only in the split name, so the model is written once, parameterised by the split. `GenerateTrain`, `GenerateTest` and `GenerateVal` pin the split.
- The listing loop keeps every directory entry whose name ends neither in `.txt` nor in `.py`, and prefixes it with `data/images/<split>/`; the definition `Entry` builds that prefixed entry. The directory listing is an input `seq<string>`.
- The writing loop writes each kept entry followed by `"\n"`. The file contents are a returned `string`.
- Both loops are methods with loop invariants. They are proved against the functions `ImageEntries` and `Serialize`. The properties of the scripts are proved as lemmas about those functions:
  - the kept entries are an in-order selection of the listing;
  - there is one entry per occurrence of each qualifying name;
  - the file reads back line by line as the entries;
  - the file holds one newline per entry.

## Model

| member | source | states |
|---|---|---|
| `Cioum.FloatMin` | cioum.c:42-44 | The result is no larger than either argument and is one of them. |
| `Cioum.FloatMax` | cioum.c:47-49 | The result is no smaller than either argument and is one of them. |
| `Cioum.Abs` | cioum.c:84 | `fabs`: the result is non-negative and equals the argument or its negation. |
| `Cioum.EuclideanDistanceSquared` | cioum.c:37-39 | The squared distance between two points is never negative. |
| `Cioum.EuclideanDistanceSquaredSymmetric` | cioum.c:37-39 | Swapping the two points leaves the squared distance unchanged. |
| `Cioum.BoxIou` | cioum.c:14-34 | The IoU is 0 when the clipped box is empty along either axis, 0 when the union area is not positive, and never negative. |
| `Cioum.BoxIouSymmetric` | cioum.c:14-34 | The IoU does not depend on the order of the two boxes. |
| `Cioum.OverlapAreaBounded` | cioum.c:15-26 | For well-formed boxes that overlap, the intersection area is between 0 and each box's area. |
| `Cioum.BoxIouAtMostOne` | cioum.c:14-34 | For well-formed boxes the IoU lies in [0, 1]. |
| `Cioum.BoxIouSelf` | cioum.c:14-34 | A box of positive width and height has IoU exactly 1 with itself. |
| `Cioum.EnclosingDiagonalSquared` | cioum.c:69-73 | The guarded squared diagonal of the enclosing box is at least 1e-7, so the center division is always defined. |
| `Cioum.CenterPenalty` | cioum.c:62-75 | The center penalty is never negative. |
| `Cioum.CenterDistanceBelowDiagonal` | cioum.c:62-73 | For well-formed boxes the squared center distance is below the guarded squared enclosing diagonal. |
| `Cioum.CenterPenaltyBelowOne` | cioum.c:62-75 | For well-formed boxes the center penalty is below 1. |
| `Cioum.CenterPenaltySymmetric` | cioum.c:62-75 | The center penalty does not depend on which box is the prediction. |
| `Cioum.AspectPenalty` | cioum.c:78-84 | The aspect penalty is never negative, and it is 0 exactly when the two guarded aspect ratios are equal. |
| `Cioum.AspectPenaltySymmetric` | cioum.c:78-84 | The aspect penalty does not depend on which box is the prediction. |
| `Cioum.PairLossBounds` | cioum.c:86-87 | For well-formed boxes and a non-negative aspect weight, a pair's loss is at least its weighted aspect penalty (so at least 0) and below 2 plus that penalty. |
| `Cioum.PairLossPerfect` | cioum.c:59-87 | A prediction equal to its target, with positive width and height, has loss exactly 0. |
| `Cioum.PairLossSymmetric` | cioum.c:59-87 | Swapping prediction and target leaves a pair's loss unchanged. |
| `Cioum.PairLossesSnoc` | cioum.c:88 | Adding one pair to the batch adds that pair's loss to the running total. |
| `Cioum.MeanLossWithin` | cioum.c:91 | The mean loss of a non-empty batch lies between any common bounds of its per-pair losses. |
| `Cioum.MeanLossNonNegative` | cioum.c:57-91 | For well-formed boxes and a non-negative aspect weight, the batch loss is never negative. |
| `Cioum.MeanLossPerfect` | cioum.c:57-91 | A batch of perfect predictions with positive sizes has batch loss 0. |
| `Cioum.MeanLossSymmetric` | cioum.c:57-91 | Exchanging the prediction and target batches leaves the batch loss unchanged. |
| `Cioum.CiouLossModified` | cioum.c:52-92 | The result is 0 when `num_boxes` is not positive. Otherwise it is exactly the mean of the per-pair losses of the first `num_boxes` pairs. It does not depend on `w_center`, and neither array is changed. |
| `Cioum.SampleFirstPair` | cioum.c:101-109 | The demonstration's first pair has IoU 225/575, center penalty 50/(1250 + 1e-7) and aspect penalty 0. |
| `Cioum.SampleSecondPair` | cioum.c:112-120 | The demonstration's second pair has IoU 270/650, center penalty 50/(1409 + 1e-7) and aspect penalty 20/(20 + 1e-7) - 20/(26 + 1e-7). |
| `Cioum.SampleLoss` | cioum.c:96-124 | With aspect weight 0.8 the demonstration batch has loss between 0.72670 and 0.72671. |
| `ImageLists.EntryInjective` | generate_train.py:7 | Two names give the same entry exactly when they are equal. |
| `ImageLists.ImageEntriesAtIndices` | generate_val.py:5-7 | The k-th entry is the prefixed name at the k-th kept position of the listing, and that name ends neither in `.txt` nor in `.py`. |
| `ImageLists.ImageIndicesIncreasing` | generate_test.py:5-7 | The kept positions strictly increase, so the kept names keep their listing order. |
| `ImageLists.ImageIndicesComplete` | generate_test.py:6 | Every position whose name ends neither in `.txt` nor in `.py` is kept. |
| `ImageLists.ImageEntriesCount` | generate_train.py:5-7 | Each occurrence of a qualifying name in the listing yields exactly one entry, and a name ending in `.txt` or `.py` yields none. |
| `ImageLists.ImageEntriesMembership` | generate_train.py:6-7 | The entry for a name is written exactly when the name is listed and passes the filter. |
| `ImageLists.ImageEntriesConcat` | generate_train.py:5-7 | The entries of two concatenated listings are the entries of the first followed by those of the second. |
| `ImageLists.SerializeConcat` | generate_train.py:11-13 | The text written for two concatenated lists is the text of the first followed by that of the second. |
| `ImageLists.SerializeCons` | generate_val.py:11-13 | The text starts with the first entry and a newline, followed by the text of the rest. |
| `ImageLists.SplitLinesSerialize` | generate_test.py:11-13 | When no entry contains a newline, reading the text back line by line gives exactly the entries, in order. |
| `ImageLists.SerializeNewlines` | generate_train.py:11-13 | When no entry contains a newline, the text holds exactly one newline per entry, and a non-empty text ends with a newline. |
| `ImageLists.ImageEntriesNewlineFree` | generate_train.py:7 | No entry contains a newline when neither the split nor any listed name does. |
| `ImageLists.ListFileReadsBack` | generate_train.py:5-13 | For newline-free names, the list file reads back as the kept entries, and it has as many lines as the listing has qualifying names. |
| `ImageLists.CollectImageFiles` | generate_train.py:5-7 | The listing loop collects exactly `ImageEntries(split, listing)`. |
| `ImageLists.WriteLines` | generate_train.py:11-13 | The writing loop produces exactly `Serialize(imageFiles)`: each entry followed by a newline, in order. |
| `ImageLists.GenerateListFile` | generate_train.py:4-13 | One script run writes `data/<split>.txt`, whose contents are the serialised kept entries of the listing. |
| `ImageLists.GenerateTrain` | generate_train.py:4-13 | The train script writes `data/train.txt` with the serialised entries prefixed `data/images/train/`. |
| `ImageLists.GenerateTest` | generate_test.py:4-13 | The test script writes `data/test.txt` with the serialised entries prefixed `data/images/test/`. |
| `ImageLists.GenerateVal` | generate_val.py:4-13 | The val script writes `data/val.txt` with the serialised entries prefixed `data/images/val/`. |
| `ImageLists.TrainSampleEntries` | generate_train.py:5-7 | For the listing `a.jpg`, `a.txt`, `generate_train.py`, `b.png`, only the two images are kept, in order and prefixed. |
| `ImageLists.TrainSampleText` | generate_train.py:11-13 | The two kept entries are written as two newline-terminated lines. |

## Left out

- Single-precision floating point. Everything is exact real arithmetic, so rounding, overflow, infinities and NaN are not modelled. `fmax`/`fmin` (cioum.c:15-18) differ from `float_max`/`float_min` only on NaN, so over reals both are `FloatMax`/`FloatMin`.
- Division by zero in the aspect ratios. In C, `pred_h + 1e-7f == 0` gives an infinity or NaN. The model instead requires `Height + 1e-7 != 0` for every pair (`AspectDefined`). The other divisions in the source can never divide by zero: the center penalty divides by the enclosing diagonal with 1e-7 added (cioum.c:73-75), the IoU divides by `union_area` only once it is checked to be positive (cioum.c:29-33), and the final `total_loss / num_boxes` (cioum.c:91) is reached only when `num_boxes` is not 0 (cioum.c:53-55).
- CiouLossModified: requires every aspect-ratio division to be defined, where the C code would carry an infinity or NaN into the loss.
- CiouLossModified: when `num_boxes` is negative the C code divides 0 by a negative number and returns a zero. The model returns 0.0 and does not distinguish a negative zero.
- EuclideanDistanceSquared: states only that the result is non-negative. It does not state that the result is zero exactly when the points coincide, because that nonlinear fact does not verify reliably.
- BoxIou: does not state when the IoU is strictly positive, only the two zero cases and non-negativity.
- `main` in cioum.c (lines 94-132): allocation, `printf` and freeing are left out. Its sample data appears in `SampleFirstPair`, `SampleSecondPair` and `SampleLoss`.
- The file system in the scripts:
  - `os.chdir`, `os.listdir`, `open`, `write` and `close` are not modelled. The listing is a parameter, and the written text is a result.
  - The order `os.listdir` returns is arbitrary; the model keeps whatever order it is given.
  - The output path is modelled as `data/<split>.txt` relative to the directory the script starts in. This is where `<split>.txt` lands after the two `os.chdir("..")` calls.
  - The final `os.chdir("..")` is not modelled.
- Python strings are modelled as sequences of characters. Unicode details of `str.endswith` (normalisation) play no part.
