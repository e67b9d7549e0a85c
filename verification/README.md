# Inception v1 evaluation loop — a Dafny model of its pure core

The program runs an Inception v1 classifier on a DPU over a list of
validation images and reports top-1 and top-5 accuracy. This project models
the parts of `main.cc` that are plain computation, and proves properties
of them:

- **Line reading** (`Lines`): the `while (getline(...))` loop that
  `LoadWords` and `LoadImageNamesSolutions` use. It splits a text into
  lines at every `'\n'` and reads a last line that has no terminating
  newline.
- **C strings, strtok and atoi** (`CStrings`, `Decimal`):
  - the NUL-terminated view of the `writable` buffer;
  - `strtok` as section 7.24.5.8 of ISO C11 describes it, with its hidden
    position made an explicit `rest`;
  - `atoi` as `strtol(s, NULL, 10)` (sections 7.22.1.2 and 7.22.1.4 of
    ISO C11).
- **The validation list** (`Validation`): how each line of `val.txt`
  becomes at most one image name plus any number of ground-truth ids.
  - The first token, split on `" \n"`, is the image name.
  - Every later token, split on `" ,.-"`, goes through `atoi`.
  - The names and the ids go into two independent lists.
- **Preprocessing geometry** (`Geometry`):
  - the target size `short_size_resize` passes to `cv::resize`;
  - the rectangle `central_crop` passes to `cv::Rect`, modelled as
    written;
  - the OpenCV assertions these can trip: resizing an empty image, and a
    region of interest outside the image.
- **Top-k selection** (`Ranking`): `TopK` pushes every `(score, index)`
  pair onto a `std::priority_queue` and pops `k` of them. Pairs compare
  lexicographically, so on equal scores the larger index pops first.
- **Accuracy counters** (`Evaluation`): `sol_counter`, `top1` and `top5`
  across the image loop of `runDNN`, including its three early returns.
  A failed `assert`, out-of-range vector indexing and a pop from an empty
  queue are modelled as an explicit `Undefined` error. The image loop
  takes the number of ranked classes `k` as a parameter; `runDNN` passes 5
  to `TopK`, and so does `Evaluation.RunDnn`.

Things outside the model are parameters of `Evaluation.Env`: the file
contents, the size `imread` gives each image, the input tensor size, and
the scores the DPU and the softmax produce for an image.

## How the model reads the code

Four places where the code does something other than what its comments or names suggest:

- **Crop size.** The comment at `main.cc:216` says the image is cropped to the input tensor's size. The `cv::Rect` built at line 179 yields `centre + crop/2` on each axis instead. See the Findings section below.
- **Resized long side.** Lines 144-145 and 148-149 multiply an `int` by a `float` scale and store the product in an `int`, which truncates. The model takes the exact quotient rounded down. The two can differ by one at ordinary sizes and by more for very long sides; see `Geometry.ShortSizeResize` under Left out.
- **Empty lists.** An empty image list, id list or label list does not end the process. Lines 312-326 print a message and `return` from `runDNN`, as the comment at line 310 says, so no accuracy is computed. The model returns `NoImages`, `NoSolutions` or `NoWords`.
- **A crop outside the image.** `image(cropSurface)` at line 182 fails OpenCV's region-of-interest assertion, which throws an exception that nothing in `main.cc` catches. The model returns `RoiOutside`, and `Evaluation` turns it into `ImageRejected`.

## Model

| member | source | states |
|---|---|---|
| Lines.GetLines | ZedBoard_DNNs/models_DNNs/Caffe/cf_inceptionv1/Caffe_Inception_v1/src/main.cc:118-121 | every line getline yields is free of '\n', and a text yields no lines exactly when it is empty |
| Lines.GetLinesOfUnlines | ZedBoard_DNNs/models_DNNs/Caffe/cf_inceptionv1/Caffe_Inception_v1/src/main.cc:118-121 | newline-free lines written one per line are read back as exactly those lines |
| Lines.UnlinesOfGetLines | ZedBoard_DNNs/models_DNNs/Caffe/cf_inceptionv1/Caffe_Inception_v1/src/main.cc:118-121 | a text that is empty or ends in '\n' is exactly its lines, each followed by '\n': no line and no character is lost |
| Lines.UnlinesOfGetLinesUnterminated | ZedBoard_DNNs/models_DNNs/Caffe/cf_inceptionv1/Caffe_Inception_v1/src/main.cc:118-121 | a last line without a terminating '\n' is still read, whole |
| CStrings.CStr | ZedBoard_DNNs/models_DNNs/Caffe/cf_inceptionv1/Caffe_Inception_v1/src/main.cc:69-73 | the C string in the buffer is the prefix of the line before its first NUL |
| CStrings.CStrStopsAtNul | ZedBoard_DNNs/models_DNNs/Caffe/cf_inceptionv1/Caffe_Inception_v1/src/main.cc:69-73 | whatever follows the first NUL of a buffer is not part of its C string |
| CStrings.Strtok | ZedBoard_DNNs/models_DNNs/Caffe/cf_inceptionv1/Caffe_Inception_v1/src/main.cc:76-86 | strtok returns no token exactly when only delimiters remain, and then every later call finds none; otherwise it returns a non-empty token free of delimiters, and the search resumes strictly later |
| CStrings.StrtokFindsFirstToken | ZedBoard_DNNs/models_DNNs/Caffe/cf_inceptionv1/Caffe_Inception_v1/src/main.cc:76-86 | the token is the run that starts right after the leading delimiters and ends at the next delimiter or at the end; the next search resumes just after that delimiter, or finds nothing when the token reached the end |
| CStrings.StrtokSkipsDelims | ZedBoard_DNNs/models_DNNs/Caffe/cf_inceptionv1/Caffe_Inception_v1/src/main.cc:76-86 | delimiters in front of the text do not change the token strtok finds or where it resumes |
| CStrings.StrtokAfterDelims | ZedBoard_DNNs/models_DNNs/Caffe/cf_inceptionv1/Caffe_Inception_v1/src/main.cc:76-86 | after any run of leading delimiters, a token ended by a delimiter is returned, and the next call resumes right after that delimiter |
| CStrings.Tokens | ZedBoard_DNNs/models_DNNs/Caffe/cf_inceptionv1/Caffe_Inception_v1/src/main.cc:78-87 | the loop of strtok(NULL, ...) calls yields only proper tokens, and none exactly when only delimiters remain |
| CStrings.TokensOfLayout | ZedBoard_DNNs/models_DNNs/Caffe/cf_inceptionv1/Caffe_Inception_v1/src/main.cc:78-87 | tokens laid out between runs of delimiters, with an optional run before the first and after the last, are returned in order: a run of several delimiters breaks the text once |
| CStrings.StrtokAtToken | ZedBoard_DNNs/models_DNNs/Caffe/cf_inceptionv1/Caffe_Inception_v1/src/main.cc:76-86 | a token followed by a delimiter is returned, and the next call resumes just after that delimiter |
| CStrings.TokensOfJoin | ZedBoard_DNNs/models_DNNs/Caffe/cf_inceptionv1/Caffe_Inception_v1/src/main.cc:78-87 | splitting tokens joined by a delimiter gives back the same tokens in order |
| Decimal.Atoi | ZedBoard_DNNs/models_DNNs/Caffe/cf_inceptionv1/Caffe_Inception_v1/src/main.cc:84 | atoi returns a negative value only after white-space and a '-', and 0 for text without digits; its partners AtoiOfNat, AtoiOfDigits and AtoiAfterSpaceAndSign state what it reads when digits follow the sign, and AtoiWithoutLeadingDigits that it returns 0 when they do not |
| Decimal.AtoiOfNat | ZedBoard_DNNs/models_DNNs/Caffe/cf_inceptionv1/Caffe_Inception_v1/src/main.cc:84 | atoi reads the decimal numeral of n as n, and with a leading '-' as -n |
| Decimal.AtoiOfDigits | ZedBoard_DNNs/models_DNNs/Caffe/cf_inceptionv1/Caffe_Inception_v1/src/main.cc:84 | atoi stops at the first character that is not a digit and returns the value of the digits before it |
| Decimal.AtoiOfNegativeDigits | ZedBoard_DNNs/models_DNNs/Caffe/cf_inceptionv1/Caffe_Inception_v1/src/main.cc:84 | after a '-', atoi returns the negated value of the digits |
| Decimal.AtoiOfPositiveDigits | ZedBoard_DNNs/models_DNNs/Caffe/cf_inceptionv1/Caffe_Inception_v1/src/main.cc:84 | after a '+', atoi returns the value of the digits |
| Decimal.AtoiSkipsSpace | ZedBoard_DNNs/models_DNNs/Caffe/cf_inceptionv1/Caffe_Inception_v1/src/main.cc:84 | leading space, tab, newline, vertical tab, form feed or carriage return characters do not change what atoi returns |
| Decimal.AtoiOfSignedDigits | ZedBoard_DNNs/models_DNNs/Caffe/cf_inceptionv1/Caffe_Inception_v1/src/main.cc:84 | with no sign or '+', atoi returns the value of the digits, and with '-' their negation |
| Decimal.AtoiAfterSpaceAndSign | ZedBoard_DNNs/models_DNNs/Caffe/cf_inceptionv1/Caffe_Inception_v1/src/main.cc:84 | atoi skips any white-space prefix, reads one optional '+' or '-', then the digits up to the first non-digit: the result is the digits' value, negated after '-' |
| Decimal.AtoiOfNoDigits | ZedBoard_DNNs/models_DNNs/Caffe/cf_inceptionv1/Caffe_Inception_v1/src/main.cc:84 | text made of an optional '+' or '-' and then no digit reads as 0; without a sign, the first character must also be neither white-space nor a sign |
| Decimal.AtoiWithoutLeadingDigits | ZedBoard_DNNs/models_DNNs/Caffe/cf_inceptionv1/Caffe_Inception_v1/src/main.cc:84 | when the character after the white-space and the optional sign is not a digit, atoi converts nothing and returns 0, whatever digits come later |
| Decimal.AtoiOfSynsetId | ZedBoard_DNNs/models_DNNs/Caffe/cf_inceptionv1/Caffe_Inception_v1/src/main.cc:84 | an id written as a synset id, "n01440764", reads as 0 |
| Decimal.DecimalValueOfNat | ZedBoard_DNNs/models_DNNs/Caffe/cf_inceptionv1/Caffe_Inception_v1/src/main.cc:84 | the numeral of n, read digit by digit, denotes n |
| Validation.ParseLine | ZedBoard_DNNs/models_DNNs/Caffe/cf_inceptionv1/Caffe_Inception_v1/src/main.cc:66-90 | a line adds no image exactly when its C string is all spaces and newlines, and then adds no id either; otherwise the image is a non-empty name free of space, newline and NUL |
| Validation.ParseLineOfLayout | ZedBoard_DNNs/models_DNNs/Caffe/cf_inceptionv1/Caffe_Inception_v1/src/main.cc:76-86 | a line made of delimiters, the name, one space or newline, and then ids between runs of " ,.-" parses to that name and atoi of those ids, in order |
| Validation.ParseLineOfNameOnly | ZedBoard_DNNs/models_DNNs/Caffe/cf_inceptionv1/Caffe_Inception_v1/src/main.cc:76-87 | a line whose only token is the name, after any spaces and newlines, adds the name and no id |
| Validation.ParseLineStopsAtNul | ZedBoard_DNNs/models_DNNs/Caffe/cf_inceptionv1/Caffe_Inception_v1/src/main.cc:69-76 | the parse of a line ends at its first NUL: what follows it is never read |
| Validation.SeparatorRunsSplitIds | ZedBoard_DNNs/models_DNNs/Caffe/cf_inceptionv1/Caffe_Inception_v1/src/main.cc:76-86 | " name 12, 3 " adds the name and the two ids 12 and 3: leading spaces, the run ", " and a trailing space each break the text once |
| Validation.Gather | ZedBoard_DNNs/models_DNNs/Caffe/cf_inceptionv1/Caffe_Inception_v1/src/main.cc:78-87 | one image per line that has a token and every id of every line, in two independent lists: the image count is the number of lines with a name, the id count the total number of ids |
| Validation.GatherKeepsNames | ZedBoard_DNNs/models_DNNs/Caffe/cf_inceptionv1/Caffe_Inception_v1/src/main.cc:78-82 | every image name a line contributes is in the image list |
| Validation.GatherKeepsIds | ZedBoard_DNNs/models_DNNs/Caffe/cf_inceptionv1/Caffe_Inception_v1/src/main.cc:83-85 | every id a line contributes is in the id list |
| Validation.GatherNameSource | ZedBoard_DNNs/models_DNNs/Caffe/cf_inceptionv1/Caffe_Inception_v1/src/main.cc:78-82 | the j-th listed image is the image name of a particular line, which the lemma returns |
| Validation.GatherNamesFromEntries | ZedBoard_DNNs/models_DNNs/Caffe/cf_inceptionv1/Caffe_Inception_v1/src/main.cc:78-82 | every listed image is the image name of some line: nothing enters the list except the lines' first tokens |
| Validation.GatherOnlyNames | ZedBoard_DNNs/models_DNNs/Caffe/cf_inceptionv1/Caffe_Inception_v1/src/main.cc:78-82 | when every line's name is a valid image name, so is every entry of the image list |
| Validation.LoadImageNamesSolutions | ZedBoard_DNNs/models_DNNs/Caffe/cf_inceptionv1/Caffe_Inception_v1/src/main.cc:55-90 | at most one image per line, each a name free of space, newline and NUL; an empty file loads two empty lists |
| Validation.GatherLockstep | ZedBoard_DNNs/models_DNNs/Caffe/cf_inceptionv1/Caffe_Inception_v1/src/main.cc:78-87 | when every line adds exactly one name and one id, image k is paired with solution k |
| Validation.ParseFormattedLine | ZedBoard_DNNs/models_DNNs/Caffe/cf_inceptionv1/Caffe_Inception_v1/src/main.cc:76-86 | a line "name id" parses to that name and that id |
| Validation.LoadFormattedList | ZedBoard_DNNs/models_DNNs/Caffe/cf_inceptionv1/Caffe_Inception_v1/src/main.cc:55-90 | names and ids written in the val.txt format load back as the same two lists |
| Validation.ParseNameOnlyLine | ZedBoard_DNNs/models_DNNs/Caffe/cf_inceptionv1/Caffe_Inception_v1/src/main.cc:76-87 | a line holding only a name adds that name and no id |
| Validation.OneTokenLineDesynchronises | ZedBoard_DNNs/models_DNNs/Caffe/cf_inceptionv1/Caffe_Inception_v1/src/main.cc:78-87 | a one-token line between two formatted lines gives three names but two ids, so the later images are scored against the wrong ids |
| Validation.IdsOfJoinedNumerals | ZedBoard_DNNs/models_DNNs/Caffe/cf_inceptionv1/Caffe_Inception_v1/src/main.cc:84-86 | two numerals joined by any of " ,.-" are read as two ids |
| Validation.DashSplitsIds | ZedBoard_DNNs/models_DNNs/Caffe/cf_inceptionv1/Caffe_Inception_v1/src/main.cc:76-86 | a line such as "x 12-3" adds the name x and the two ids 12 and 3 |
| Geometry.ShortSizeResize | ZedBoard_DNNs/models_DNNs/Caffe/cf_inceptionv1/Caffe_Inception_v1/src/main.cc:134-154 | an empty image is rejected; a square becomes 256 x 256; otherwise the short side becomes 256 and the long side is the proportional length rounded down, at least 256 |
| Geometry.Half | ZedBoard_DNNs/models_DNNs/Caffe/cf_inceptionv1/Caffe_Inception_v1/src/main.cc:173-176 | C's int division by 2 truncates toward zero, for negative sizes as well |
| Geometry.CropRect | ZedBoard_DNNs/models_DNNs/Caffe/cf_inceptionv1/Caffe_Inception_v1/src/main.cc:166-179 | the corner plus the "width" passed to cv::Rect lands on twice the centre, not on the crop's far edge; the corner is inside the image exactly when half the crop fits in half the image |
| Geometry.CentralCrop | ZedBoard_DNNs/models_DNNs/Caffe/cf_inceptionv1/Caffe_Inception_v1/src/main.cc:166-183 | the crop succeeds exactly when half the crop size fits in half the image on both axes, and then yields centre + crop/2 in each direction |
| Geometry.Preprocess | ZedBoard_DNNs/models_DNNs/Caffe/cf_inceptionv1/Caffe_Inception_v1/src/main.cc:211-221 | for a tensor no larger than 256 x 256, preprocessing succeeds exactly when the image is not empty |
| Geometry.ResizedImageFitsCrop | ZedBoard_DNNs/models_DNNs/Caffe/cf_inceptionv1/Caffe_Inception_v1/src/main.cc:211-217 | after the resize, a crop no larger than 256 x 256 has its corner inside the image and does not run past the far edges |
| Geometry.IntendedCentralCrop | ZedBoard_DNNs/models_DNNs/Caffe/cf_inceptionv1/Caffe_Inception_v1/src/main.cc:172-182 | with corners turned into width and height, a crop that fits yields exactly the crop size, rounded down to even |
| Geometry.CropAsWrittenIsNotTensorSized | ZedBoard_DNNs/models_DNNs/Caffe/cf_inceptionv1/Caffe_Inception_v1/src/main.cc:179 | for a 256 x 256 image and a 224 x 224 tensor the rectangle is (16, 16, 240, 240) and yields 240 x 240, while the intended crop yields 224 x 224 |
| Geometry.CropSizeComparison | ZedBoard_DNNs/models_DNNs/Caffe/cf_inceptionv1/Caffe_Inception_v1/src/main.cc:166-183 | for an even crop that fits, the intended crop has the crop size, while the crop as written has it only when it spans the whole even part of the image |
| Ranking.Top | ZedBoard_DNNs/models_DNNs/Caffe/cf_inceptionv1/Caffe_Inception_v1/src/main.cc:267-274 | q.top() is empty exactly when every index has been popped; otherwise it is an unpopped index above every other unpopped one in (score, index) order |
| Ranking.Pops | ZedBoard_DNNs/models_DNNs/Caffe/cf_inceptionv1/Caffe_Inception_v1/src/main.cc:267-288 | k pops give k distinct in-range indices in strictly descending (score, index) order, each above every index left in the queue |
| Ranking.TopKUnique | ZedBoard_DNNs/models_DNNs/Caffe/cf_inceptionv1/Caffe_Inception_v1/src/main.cc:267-288 | any sequence that is a descending top k in (score, index) order equals the pops, so the result does not depend on the heap's internals |
| Ranking.PopsPrefix | ZedBoard_DNNs/models_DNNs/Caffe/cf_inceptionv1/Caffe_Inception_v1/src/main.cc:273-288 | popping fewer times gives a prefix of popping more times |
| Ranking.FullPopsIsDescendingSort | ZedBoard_DNNs/models_DNNs/Caffe/cf_inceptionv1/Caffe_Inception_v1/src/main.cc:267-271 | emptying the queue lists every index once, in strictly descending (score, index) order |
| Ranking.FirstPopIsMaximum | ZedBoard_DNNs/models_DNNs/Caffe/cf_inceptionv1/Caffe_Inception_v1/src/main.cc:274 | the first pop is above every other index |
| Ranking.TiesPopLargerIndexFirst | ZedBoard_DNNs/models_DNNs/Caffe/cf_inceptionv1/Caffe_Inception_v1/src/main.cc:267-274 | of two popped indices with equal scores, the larger index pops first |
| Ranking.TopK | ZedBoard_DNNs/models_DNNs/Caffe/cf_inceptionv1/Caffe_Inception_v1/src/main.cc:265-290 | TopK pops the top k; top5 rises by one exactly when the ground truth is among them, and top1 exactly when it is the first, which is the Tally of the popped indices applied to the counters |
| Ranking.Tally | ZedBoard_DNNs/models_DNNs/Caffe/cf_inceptionv1/Caffe_Inception_v1/src/main.cc:281-286 | per image, sol_counter rises by one, top5 by at most one, top1 by no more than top5, so 0 <= top1 <= top5 <= sol_counter is kept |
| Evaluation.Score | ZedBoard_DNNs/models_DNNs/Caffe/cf_inceptionv1/Caffe_Inception_v1/src/main.cc:342-399 | after n images ranked k at a time, sol_counter is n and 0 <= top1 <= top5 <= n |
| Evaluation.InTopKIffRankBelow | ZedBoard_DNNs/models_DNNs/Caffe/cf_inceptionv1/Caffe_Inception_v1/src/main.cc:273-286 | the ground truth is among the first k pops exactly when its rank is below k, and is the first pop exactly when its rank is 0 |
| Evaluation.AlwaysRankedFirst | ZedBoard_DNNs/models_DNNs/Caffe/cf_inceptionv1/Caffe_Inception_v1/src/main.cc:281-286 | when the ground truth always ranks first, top1 = top5 = sol_counter |
| Evaluation.AlwaysRankedFifth | ZedBoard_DNNs/models_DNNs/Caffe/cf_inceptionv1/Caffe_Inception_v1/src/main.cc:281-286 | when the ground truth always ranks fifth, top1 stays 0 and top5 = sol_counter |
| Evaluation.NeverInTopFive | ZedBoard_DNNs/models_DNNs/Caffe/cf_inceptionv1/Caffe_Inception_v1/src/main.cc:281-286 | when the ground truth always ranks sixth or lower, neither top1 nor top5 moves |
| Evaluation.ProcessImage | ZedBoard_DNNs/models_DNNs/Caffe/cf_inceptionv1/Caffe_Inception_v1/src/main.cc:349-398 | one loop pass succeeds exactly when OpenCV accepts the image, TopK's assertion holds, the image has an id, its scores allow k pops, and the popped indices and its id index words.txt; then the counters take the Tally of the k pops. It fails with ImageRejected exactly when preprocessing rejects the image, and otherwise with Undefined |
| Evaluation.Stream | ZedBoard_DNNs/models_DNNs/Caffe/cf_inceptionv1/Caffe_Inception_v1/src/main.cc:349-399 | the loop stops at the first image that fails, and the failure names that image, below n, as rejected or undefined |
| Evaluation.StreamOutcome | ZedBoard_DNNs/models_DNNs/Caffe/cf_inceptionv1/Caffe_Inception_v1/src/main.cc:349-399 | the loop over n images succeeds exactly when every one of them completes, and a failed loop names the first image that does not complete |
| Evaluation.StreamRejects | ZedBoard_DNNs/models_DNNs/Caffe/cf_inceptionv1/Caffe_Inception_v1/src/main.cc:353-356 | a failed loop reports its image as rejected exactly when preprocessing rejects that image |
| Evaluation.StreamScores | ZedBoard_DNNs/models_DNNs/Caffe/cf_inceptionv1/Caffe_Inception_v1/src/main.cc:349-399 | a loop that completes leaves exactly the counters of the fold over the images' scores |
| Evaluation.RunDnn | ZedBoard_DNNs/models_DNNs/Caffe/cf_inceptionv1/Caffe_Inception_v1/src/main.cc:301-402 | a run returns early for no images, no ids or no labels exactly when that list is empty and the ones loaded before it are not; otherwise it completes exactly when every image completes with k = 5, and then 0 < sol_counter = number of images <= number of ids, and the counters are consistent and equal the fold over the scores |
| Evaluation.PerfectBackend | ZedBoard_DNNs/models_DNNs/Caffe/cf_inceptionv1/Caffe_Inception_v1/src/main.cc:395-402 | a run whose lists are non-empty, whose every image completes, and whose scores always rank the ground truth first, completes with top1 = top5 = sol_counter, so both accuracies are 1 |
| Evaluation.PerfectScores | ZedBoard_DNNs/models_DNNs/Caffe/cf_inceptionv1/Caffe_Inception_v1/src/main.cc:281-286 | over the first n images, scores that always rank the ground truth first give the counters (n, n, n) |

## Left out

- DPU calls (`dpuGetInputTensorHeight`, `dpuSetInputImage2`, `dpuRunTask`, `dpuGetOutputTensorInHWCFP32` and the others) are foreign code. The tensor size is a parameter. The scores an image receives are a function from its name, also a parameter.
- `CPUCalcSoftmax` is floating-point `exp` and division. It is left out, and the scores handed to `TopK` are that parameter. Scores are integers: any totally ordered score behaves the same in the ranking, and NaN is not modelled.
- `mean_value_substract` and the pixel resampling of `cv::resize` change pixel values, not sizes. Pixels are not modelled.
- File access is not modelled: opening `val.txt` and `words.txt`, the `exit(1)` when opening fails, and `imread`. The files' texts are parameters. An image `imread` cannot read is a 0 x 0 size.
- Output is not modelled: printing, the timer, the output file, and the final `float(top1)/sol_counter` divisions. `Evaluation.RunDnn` states `sol_counter > 0` after a completed run, so those divisions are defined.
- `int` overflow is not modelled: the counters and `atoi` use unbounded integers. An out-of-range `atoi` result is undefined in C.
- Geometry.ShortSizeResize: the long side is computed as the exact `long * 256 / short` rounded down. The source multiplies by a single-precision `float` scale and truncates, and that float arithmetic is not modelled. At ordinary sizes the result may differ by one: a 41 x 328 image gives 2047 where the exact value is 2048, and a 3 x 49154 image gives 4194475 where the exact value is 4194474. For very long sides the gap grows with the product's rounding error: a 3 x 200000 image gives 17066668 for 17066666, and a 3 x 1000000 image gives 85333336 for 85333333. Once the product exceeds INT_MAX, converting the float to `int` is undefined behaviour in C++; the model returns the exact value there too.
- Ranking.TopK: requires `0 < k <= |d|`. `k > 0` and `size > 0` are the assertion at line 266. `k <= size` is required because `q.top()` on an empty queue is undefined. That path is modelled in `Evaluation.ProcessImage` as an `Undefined` error.
- Evaluation.ProcessImage: the `assert` at line 266 aborts, and indexing out of range is undefined. Both become `Undefined(i)`, and the model does not tell them apart.

## Findings

| source | as written | input that shows it | evidently intended | confidence | as-written member | corrected member |
|---|---|---|---|---|---|---|
| ZedBoard_DNNs/models_DNNs/Caffe/cf_inceptionv1/Caffe_Inception_v1/src/main.cc:179 | `Rect cropSurface(left_x, top_y, right_x, bottom_y)` passes the far corner where `cv::Rect` takes a width and a height | a 256 x 256 image and a 224 x 224 input tensor: the region is (16, 16) with size 240 x 240, not 224 x 224 | `Rect(left_x, top_y, right_x - left_x, bottom_y - top_y)`, a centred region of the tensor's size | high, not executed | Geometry.CropAsWrittenIsNotTensorSized | Geometry.IntendedCentralCrop |

The rest of the model (`Geometry.Preprocess`, `Evaluation.RunDnn`) uses the crop as written, `Geometry.CentralCrop`. That crop always fits after the resize, so the program does not fail on it. The DPU receives a larger, off-centre region than the comment at line 216 describes.
