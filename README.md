# yolo-cls, modelled in Dafny

yolo-cls classifies image files with a YOLO classification model. Paths come
either from the command line, pushed into the input queue as given, or one per
line from standard input, where a producer thread drops those whose extension
is not a supported image. Worker threads pop paths, check the file, run the
model and push one formatted line per image they classify into an output
queue; a file that fails is reported on standard error instead. A printer
thread then writes the queued lines to standard output.

This project models the non-numeric core of that program:

- `wrappers.dfy` (`Wrappers`) defines `Option` and `Result`.
- `text.dfy` (`Text`) covers the character and number helpers the core relies on:
  - `std::isspace` and `std::tolower` for ASCII;
  - the leading-digit split;
  - decimal rendering and its value.
- `storage_unit.dfy` (`StorageUnit`) covers `string_unit_to_numeric`:
  - the trimming, lower-casing and number/unit split;
  - the multiplier table (`b`, `k`/`kb` up to `t`/`tb`, powers of 1024);
  - the unsigned 64-bit range check standing for `std::stoull`;
  - the exact overflow guard;
  - each error as a `ParseError` value.
- `image_extension.dfy` (`ImageExtension`) covers `is_supported_image`:
  - the 26 listed extensions;
  - the optional leading dot;
  - case-insensitivity.
- `configuration.dfy` (`Config`) covers the `configuration` defaults and the
  fix-up that turns `threads == 0` into one worker.
- `tsqueue.dfy` (`Queue`) covers the closeable string queue, in two forms:
  - as a state machine (`Step`, `Run`), with its laws;
  - as the `TsQueue` class, whose `Push`, `Pop` and `Close` are proved to
    perform exactly those steps.
- `yolo.dfy` (`Yolo`) covers the post-processing half of `yolo::predict`:
  - index the scores, sort them in place (an array selection sort proved
    sorted and a permutation), and keep the best `min(k, n)`;
  - name them from the class list;
  - the guard against a missing session;
  - the move constructor and move assignment, which reset the moved-from object.
- `pipeline.dfy` (`Pipeline`) covers `thread_get_line`, `thread_classify` and
  `thread_print_tsq` as methods over `TsQueue` objects, each run on its own.
  Each is proved against a function of its input. `Accepted` gives the lines
  the producer enqueues. `Records` and `Failures` give, per path, the worker's
  record or its diagnostic. The printer outputs exactly the queue's contents.

Four things are inputs rather than modelled:
- The file system, `cv::imread`, the model's inference (`Environment`).
- A path's extension (`extensionOf`).
- The clock (`elapsedMs`).
- `std::to_string` of a `float` (`showConfidence`).

Confidences are `real`.

Two behaviours of the code a reader might not expect; the model follows the
code:
- `tsqueue::push` does not look at the `done` flag, so a push after `close` still
  appends. `TsQueue.Push` and `Step` do the same.
- The worker writes a `", "` after the path whenever `top_k != 0`, even when the
  model returns no predictions. `FormatRecord` is written the same way.

## Model

| member | source | states |
|---|---|---|
| Text.IsSpace | src/utils.cpp:55-58 | `std::isspace` in the "C" locale: space and the control characters tab through carriage return |
| Text.ToLowerChar | src/utils.cpp:64 | upper-case ASCII letters map to lower case by +32; every other character is unchanged |
| Text.ToLower | src/utils.cpp:64 | lower-casing keeps the length and maps each character on its own |
| Text.ToLowerOfLower | src/utils.cpp:64 | a string without upper-case letters is unchanged by lower-casing |
| Text.ToLowerOfUpper | src/utils.cpp:64 | lower-casing an upper-cased string gives the lower-cased original |
| Text.LeadingDigits | src/utils.cpp:67-70 | the split position: everything before it is a digit, and the character at it (if any) is not |
| Text.LeadingDigitsOfConcat | src/utils.cpp:67-70 | for digits followed by a non-digit rest, the split falls exactly after the digits |
| Text.Decimal | src/yolo.cpp:357 | the decimal rendering is non-empty, all digits, and has no leading zero |
| Text.DecimalRoundTrip | src/yolo.cpp:357 | reading back the rendering of `n` gives `n` |
| StorageUnit.TrimLeft | src/utils.cpp:55 | the result is a suffix of the input; what was removed is all whitespace; the result does not start with whitespace |
| StorageUnit.TrimRight | src/utils.cpp:58 | the result is a prefix of the input; what was removed is all whitespace; the result does not end with whitespace |
| StorageUnit.TrimmedIsUnchanged | src/utils.cpp:54-58 | a string with a non-whitespace character at each end is its own trimmed form and is not blank |
| StorageUnit.Trim | src/utils.cpp:54-58 | the trimmed form has no whitespace at either end, and is empty exactly when the input is blank |
| StorageUnit.ParseBlank | src/utils.cpp:54-61 | the empty-input error is raised exactly for empty or all-whitespace input |
| StorageUnit.ParseIgnoresSurroundingSpace | src/utils.cpp:54-58 | whitespace added on either side never changes the outcome |
| StorageUnit.ParseCaseInsensitive | src/utils.cpp:64 | two inputs equal up to case have the same outcome |
| StorageUnit.ParseUpperCase | src/utils.cpp:64 | upper-casing the input never changes the outcome |
| StorageUnit.Multiplier | src/utils.cpp:78-105 | a multiplier, when there is one, is at least 1 |
| StorageUnit.MultiplierTable | src/utils.cpp:79-105 | a unit is accepted exactly when it is one of the nine table keys or empty; its multiplier is 1024 to the power of its rank (b/empty 0, k 1, m 2, g 3, t 4) |
| StorageUnit.GuardIsExact | src/utils.cpp:107-112 | the test `number > max / multiplier` holds exactly when `number * multiplier` exceeds 2^64-1 |
| StorageUnit.Scale | src/utils.cpp:107-114 | the product, when returned, fits in 64 bits |
| StorageUnit.ParseLower | src/utils.cpp:66-114 | a value, when returned, fits in 64 bits |
| StorageUnit.Parse | src/utils.cpp:50-115 | a value, when returned, fits in 64 bits |
| StorageUnit.ParseNonBlank | src/utils.cpp:54-64 | non-blank input is parsed as its trimmed, lower-cased form |
| StorageUnit.LowerOutcome | src/utils.cpp:66-114 | the full case split in the source's order: no digits gives the missing-number error; a number above 2^64-1 gives out-of-range; an unknown unit gives the unknown-unit error carrying the unit; otherwise the overflow error or the scaled value |
| StorageUnit.ParseRendered | src/utils.cpp:66-114 | for a decimal number followed by a known unit: out-of-range above 2^64-1, overflow when the product exceeds 2^64-1, otherwise `n * 1024^rank` |
| StorageUnit.ParseHundredMegabytes | src/utils.h:66 | `"100mb"` is 104857600 bytes |
| StorageUnit.UnitStartsWithLetter | src/utils.cpp:81-91 | every known unit is empty or starts with a lower-case letter |
| StorageUnit.UnknownUnitWithoutLetter | src/utils.cpp:93-105 | a non-empty suffix that does not start with a letter is never a known unit |
| StorageUnit.NoLeadingDigitRejected | src/utils.cpp:67-73 | a trimmed input that does not start with a digit (a sign, a bare unit, a letter) fails with the missing-number error |
| StorageUnit.InnerSpaceRejected | src/utils.cpp:67-105 | digits, then whitespace, then a unit fail with the unknown-unit error, whose unit is the whole lower-cased rest, whitespace included |
| StorageUnit.ParseRejections | src/utils.cpp:67-73 | `"mb"` and `"-5"` have no numeric part |
| StorageUnit.ParseTwoG | src/utils.h:39-40 | `"2g"` is 2^31 bytes |
| StorageUnit.ParseSpacedUpperCase | src/utils.h:39-40 | `" 2G "` is 2^31 bytes, the same as `"2g"` |
| ImageExtension.StripDot | src/utils.cpp:177-179 | exactly one leading dot is removed, when there is one |
| ImageExtension.IsSupportedImage | src/utils.cpp:177-186 | the extension, without one leading dot and lower-cased, is in the whitelist (characterised by `SupportedExactly`) |
| ImageExtension.OpenCvAreAlphanumeric | src/utils.cpp:157-167 | each OpenCV extension is non-empty lower-case letters and digits |
| ImageExtension.GdalAreAlphanumeric | src/utils.cpp:169-173 | each GDAL extension is non-empty lower-case letters and digits |
| ImageExtension.MembersAreNormal | src/utils.cpp:156-174 | every listed extension is non-empty, dot-free at the front, and lower-case |
| ImageExtension.SupportedMatchesMember | src/utils.cpp:177-186 | an accepted extension equals, ignoring case, some listed extension with or without one dot |
| ImageExtension.MemberMatchIsSupported | src/utils.cpp:177-186 | any listed extension, in any case, with or without one dot, is accepted |
| ImageExtension.SupportedExactly | src/utils.cpp:156-186 | accepted if and only if it matches a listed extension ignoring case, with or without one leading dot |
| ImageExtension.DotOptional | src/utils.cpp:177-179 | an extension and its dotted form are accepted together |
| ImageExtension.DoubleDotRejected | src/utils.cpp:177-186 | only one dot is stripped, so an extension starting with two dots is never accepted |
| ImageExtension.CaseInsensitive | src/utils.cpp:181-186 | extensions equal up to case are accepted together |
| ImageExtension.EmptyRejected | src/utils.cpp:177-186 | the empty extension and a lone dot are rejected |
| ImageExtension.TypicalExtensions | src/utils.cpp:156-186 | `.png`, `.JPG` and `tiff` are accepted; `.gif` and `..png` are not |
| Config.Default | src/utils.h:58-69 | the member defaults: empty paths, top-k 5, the hardware thread count, flags off, maximum file size 100 MiB obtained through the storage-unit parser, no image files |
| Config.FixThreads | src/utils.cpp:257-258 | at least one worker afterwards; a non-zero count is left alone; no other setting changes |
| Config.DefaultRunsOneWorkerAtLeast | src/utils.cpp:257-258 | with the defaults, the worker count is the hardware thread count, or 1 when that is 0 |
| Queue.Step | src/tsqueue.cpp:36-76 | closing is monotone; `close` always leaves the queue closed; `pop` gives end-of-stream exactly when the queue is empty and closed |
| Queue.Run | src/tsqueue.cpp:36-76 | a sequence of operations run on one queue, with the values the pops return; undefined when a pop would wait forever (characterised by `RunConcat`, `PushesAppend`, `PopsInOrder`, `Fifo`) |
| Queue.ClosedIsMonotone | src/tsqueue.cpp:68-76 | once closed, a queue stays closed whatever operations follow |
| Queue.ClosedNeverBlocks | src/tsqueue.cpp:53-58 | on a closed queue no `pop` ever waits, so any operation sequence runs to the end |
| Queue.CloseIdempotent | src/tsqueue.cpp:68-76 | closing twice is the same as closing once |
| Queue.DrainedStaysDrained | src/tsqueue.cpp:50-63 | every `pop` on an empty closed queue returns end-of-stream and changes nothing |
| Queue.RunConcat | src/tsqueue.cpp:36-76 | running two operation sequences one after the other is running their concatenation |
| Queue.PushesAppend | src/tsqueue.cpp:36-43 | pushes append to the tail in order and return nothing |
| Queue.PopsInOrder | src/tsqueue.cpp:50-63 | as many pops as queued items return the items head first and empty the queue |
| Queue.Fifo | src/tsqueue.cpp:36-63 | pushing `xs` and then popping everything returns the old items and then `xs`, in order, with no loss or duplication |
| Queue.FifoSteps | src/tsqueue.cpp:36-63 | a silent prefix followed by a draining suffix composes into one draining run |
| Queue.TsQueue.constructor | src/tsqueue.h:68-72 | a new queue is empty and open |
| Queue.TsQueue.Push | src/tsqueue.cpp:36-43 | appends the value at the tail, does not touch the closed flag, and is exactly the `Push` step |
| Queue.TsQueue.Pop | src/tsqueue.cpp:50-63 | returns and removes the head when there is one; otherwise (closed) returns end-of-stream and changes nothing; exactly the `Pop` step |
| Queue.TsQueue.Close | src/tsqueue.cpp:68-76 | sets the closed flag, keeps the items, and is exactly the `Close` step |
| Yolo.Indexed | src/yolo.cpp:335-341 | entry `i` is the pair `(i, scores[i])`, for every score |
| Yolo.IsTopK | src/yolo.cpp:343-349 | the selection `SelectTopK` and `Predict` are proved against: `min(k, n)` entries, by non-increasing score, distinct indices each with its own score, and no unselected score above a selected one |
| Yolo.PermutationOfIndexed | src/yolo.cpp:343-344 | a reordering of the indexed scores lists every index once, with its own score |
| Yolo.PrefixOfSortedIsTopK | src/yolo.cpp:343-349 | the first `min(k, n)` entries of a descending reordering are a valid top-k selection |
| Yolo.IndexOfMax | src/yolo.cpp:344 | the index returned holds a maximum score of the unsorted suffix |
| Yolo.Swap | src/yolo.cpp:344 | two entries are exchanged and the array stays a permutation of itself |
| Yolo.SortDescending | src/yolo.cpp:343-344 | the array ends sorted by non-increasing score and is a permutation of what it held |
| Yolo.SelectTopK | src/yolo.cpp:335-349 | returns `min(k, n)` entries, by non-increasing score, with distinct indices, each with its own score; no score left out beats one kept |
| Yolo.ClassLabel | src/yolo.cpp:354-357 | the corrected lookup: the listed name for an index within the class list; otherwise `class_` followed by exactly the shortest decimal rendering of the index, as `std::to_string` writes it, with no read past the end |
| Yolo.ClassLabelAsWritten | src/yolo.cpp:354-357 | the lookup with the source's `<=` guard; `None` stands for the read one past the end (characterised by `AsWrittenOffByOne`) |
| Yolo.AsWrittenOffByOne | src/yolo.cpp:354-357 | the `<=` guard agrees with the bounded lookup except at `index == size`, where it reads past the end |
| Yolo.AsWrittenReadsPastEnd | src/yolo.cpp:354-355 | with an empty class list and class 0, the guard lets the out-of-range read through, where `class_0` was meant |
| Yolo.DecimalInjective | src/yolo.cpp:357 | different indices render differently |
| Yolo.ClassLabelIdentifiesIndex | src/yolo.cpp:356-357 | two classes without a name in the list never share a placeholder label |
| Yolo.Labels | src/yolo.cpp:349-358 | one prediction per selected entry, in order, carrying its label and score |
| Yolo.Model.constructor | src/yolo.cpp:40-44 | the default object has no session, zero sizes and node counts, no class names, softmax off |
| Yolo.Model.Loaded | src/yolo.cpp:114-185 | built only with at least one input and one output node, as a load that does not throw leaves it; a loaded object has a session and the sizes, class names, node counts and softmax flag that loading produced |
| Yolo.Model.MoveFrom | src/yolo.cpp:50-71 | the new object takes over the whole state, and the moved-from object is left like a default-constructed one |
| Yolo.Model.MoveAssign | src/yolo.cpp:78-104 | for a distinct source, takes over its whole state and resets the source; self-assignment changes nothing |
| Yolo.Model.Predict | src/yolo.cpp:306-361 | fails with `The model is not initialized.` exactly when there is no session; otherwise returns the labelled predictions of a valid top-k selection |
| Yolo.PredictionsShape | src/yolo.cpp:300-304 | `min(k, n)` predictions, by non-increasing confidence, each confidence one of the scores, none for no scores |
| Pipeline.SizeT | src/utils.cpp:302 | passing `int top_k` as `size_t` keeps non-negative values and wraps negative ones modulo 2^64. |
| Pipeline.Passes | src/utils.cpp:366-372 | a line is enqueued when the extension check is disabled or its extension is supported (characterised by `AcceptedMembers`) |
| Pipeline.Accepted | src/utils.cpp:360-373 | the producer never enqueues more lines than it reads |
| Pipeline.AcceptedStep | src/utils.cpp:366-372 | one more line read adds that line at the end when it passes, and nothing otherwise |
| Pipeline.ThreadGetLine | src/utils.cpp:357-375 | the queue gains exactly the accepted lines, in input order, and is then closed exactly once, also when no line passes |
| Pipeline.AcceptedMembers | src/utils.cpp:362-372 | a line is enqueued if and only if it was read and passes: extension check disabled, or a supported extension |
| Pipeline.AcceptedConcat | src/utils.cpp:360-373 | filtering preserves input order |
| Pipeline.AcceptedAllWhenDisabled | src/utils.cpp:366-372 | with the extension check disabled, every line is enqueued |
| Pipeline.JoinPredictions | src/utils.cpp:319-325 | the predictions as `name confidence`, separated by `, `; empty exactly when there are no predictions |
| Pipeline.FormatRecord | src/utils.cpp:304-325 | a record starts with its path; without timing, top-k 0 and predictions it is the path alone |
| Pipeline.Process | src/utils.cpp:279-327 | a file yields a record if and only if it is a regular file, its size is between 1 and `max_filesize` inclusive, it decodes, and the classifier succeeds; the record starts with the path |
| Pipeline.Records | src/utils.cpp:274-335 | the records the worker pushes, at most one per path (characterised by `RecordsExactly` and `RecordsConcat`) |
| Pipeline.Failures | src/utils.cpp:274-335 | the diagnostics, at most one per path, each naming a popped path with the error it fails with |
| Pipeline.ProcessedStep | src/utils.cpp:274-335 | one more popped path adds its record, or its diagnostic, at the end |
| Pipeline.ThreadClassify | src/utils.cpp:272-336 | drains the closed input queue; the output queue gains exactly the records of the drained paths, in pop order; every failing path is reported instead; the output queue's closed flag is left alone |
| Pipeline.RecordsAndFailuresPartition | src/utils.cpp:274-335 | every popped path gives exactly one record or exactly one diagnostic |
| Pipeline.RecordsConcat | src/utils.cpp:274-335 | the records of a concatenation are the records of its parts |
| Pipeline.FailureIsIsolated | src/utils.cpp:276-334 | a failing file removes only its own record; the files after it are processed as if it were absent |
| Pipeline.OneSuccessOneFailure | src/utils.cpp:276-334 | a classified file followed by a failing one gives one record for the first and one diagnostic naming the second |
| Pipeline.RecordsExactly | src/utils.cpp:274-327 | a record is pushed if and only if some popped path succeeds with it |
| Pipeline.SizeLimits | src/utils.cpp:288-293 | an empty file is rejected as empty; one over the limit is rejected as too large; one of exactly the limit is accepted |
| Pipeline.ThreadPrintTsq | src/utils.cpp:343-349 | drains the closed queue and prints exactly its contents, head first |

## Left out

- Threads, the mutex and the condition variable of `tsqueue` are not modelled.
  Each thread function runs alone, and a blocking `pop` on an empty open queue
  becomes a precondition (`Enabled`). No-lost-wakeup and multi-consumer
  interleavings are therefore out of scope.
- `src/yolo-cls.cpp` is not part of this model. It holds the orchestrator that
  starts the workers, joins them and closes the output queue after the workers.
  It also pushes paths given on the command line into the input queue without
  any extension check and then closes it (src/yolo-cls.cpp:100-104). That
  producer has no member of its own; `Queue.PushesAppend` states what its
  pushes do to the queue.
  The output order across several workers is not modelled either.
- `parse_arguments`'s option loop (`xgetopt`, `std::stoi` for `-t` and `-k`,
  `--help`, `--about`) is left out. It is I/O around the structure and fix-up
  modelled in `Config`.
- `Config.Default`: `std::thread::hardware_concurrency()` is the parameter
  `hardwareThreads`.
- `yolo::preprocess`, the ONNX Runtime session run and `softmax` are left out.
  They are floating-point numerics and a foreign library. Their result is the
  `scores` input of `Yolo.Model.Predict`.
- `Yolo.Model.Loaded`: its failure paths are left out. These are the model or
  class file that cannot be opened or read, and zero input or output nodes,
  which is why it requires at least one of each. All are I/O and foreign calls.
  The values it stores are parameters.
- `Yolo.Model.MoveFrom`: the moved-from `class_names` is empty, as the
  `std::vector` move constructor guarantees. The ONNX environment, allocator and
  node-name vectors are not modelled.
- `Yolo.Model.MoveAssign`: the moved-from `class_names` is modelled as empty.
  After a `std::vector` move assignment it is valid but unspecified, and empty in
  practice with the default allocator. The ONNX environment, allocator and
  node-name vectors it also moves are not modelled.
- `Pipeline.Process`: the clock, the file system, `cv::imread` and `predict`
  are fields of `Environment`. The exact text of each exception and of the
  `stderr` line is not modelled. A diagnostic is the path with the kind of
  error. The clock is a function of the path, so two occurrences of the same
  path report the same time.
- `Pipeline.FormatRecord`: `std::to_string` of a `float` is the parameter
  `showConfidence`. The milliseconds are rendered in decimal.
- `Pipeline.ThreadGetLine`: `std::getline` on standard input is the sequence
  `lines`, and `std::filesystem::path::extension` is the parameter
  `extensionOf`.
- Strings are sequences of Unicode characters, while `std::string` holds bytes.
  Every outcome agrees, because only ASCII characters are classified or changed.
  The unit carried by an `UnknownUnit` error is a character sequence, not the
  original bytes.
- Scores are `real`, not 32-bit `float`. NaN and rounding are not modelled.
  Ties among equal scores may be selected in any order, as `std::sort` is not
  stable.

## Findings

| source | as written | input that shows it | evidently intended | confidence | as-written member | corrected member |
|---|---|---|---|---|---|---|
| src/yolo.cpp:354 | `if(class_index <= class_names.size())` reads `class_names[class_index]` also when `class_index == class_names.size()`, one past the end (modelled by `Yolo.ClassLabelAsWritten`) | a model whose output has more classes than the class-names file has lines, e.g. an empty file and class index 0 | `class_index < class_names.size()`, so that a class with no name is labelled `class_<index>` | not executed | Yolo.AsWrittenReadsPastEnd | Yolo.ClassLabel |
