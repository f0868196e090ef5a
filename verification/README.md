# ft_vox profiler and shader loader, modelled in Dafny

This project models two parts of the ft_vox voxel engine.

**The profiler** has two layers:

- `ProfilerObject` times one named code region. A start/stop pair appends one duration sample.
- `Profiler` keeps one recorder per region. Its `LogData` reports every recorder: it sorts the samples and reduces them to average, median, worst, best, and the worst-5% and best-5% order statistics. It picks a display unit from the worst sample. It compares each metric with the baseline stored by the previous run and writes the current value back as the new baseline, but only when saving is switched on.

The LMDB database is modelled as a finite map from key text to value text. A key is the region name followed by the metric label, cut to 255 characters. Values are written with `std::to_string` and read back with `atol`. Both are modelled character by character.

**The shader loader** has four parts:

- The constructor classifies each regular file of a shader folder by its name. The stages are vertex, fragment and geometry, and the first match wins.
- It builds a stage mask and rejects a folder that lacks a vertex or a fragment stage.
- `parseAttributes` reads the `layout (location = N) in TYPE NAME` declarations of each vertex file, line by line. The model follows the exact `std::istringstream` extraction semantics, including failed extractions that leave the previous token in place.
- `GetUniformLocation` caches the locations the GL returns, and `Use` skips `glUseProgram` when the shader is already active.

Modules, in dependency order:

| module | file | models |
|---|---|---|
| `Wrappers` | wrappers.dfy | `Option` and `Result` |
| `Decimal` | decimal.dfy | `std::to_string(long)` and C `atol` |
| `Samples` | samples.dfy | `std::sort` on durations, the sum, and order statistics defined by counting |
| `Statistics` | statistics.dfy | the statistics and the display unit of `ProfilerObject::LogData` |
| `Baseline` | baseline.dfy | `Profiler::InsertData`, `Profiler::RetrieveData` and the key format |
| `Recorder` | recorder.dfy | `ProfilerObject::StartTracking` and `ProfilerObject::StopTracking` |
| `Reporter` | reporter.dfy | `printWithComparison` and `ProfilerObject::LogData` |
| `Registry` | registry.dfy | `Profiler::StartTracking`, `Profiler::StopTracking`, `Profiler::LogData` and `Profiler::SetSaveOn` |
| `LineStream` | linestream.dfy | `std::string::find`, and `>>` into a `std::string` or an `int` |
| `Attributes` | attributes.dfy | `Shader::parseAttributes` |
| `Shader` | shader.dfy | the `Shader` constructor, `GetUniformLocation` and `Use` |

Behaviour of the code worth noting:

- **Median of an even count.** It is the C++ integer quotient of the two central samples' sum by 2, truncated toward zero. It is not their exact mean.
- **Average.** It is also a truncating quotient.
- **Save flag.** `SetSaveOn` can be called at any time. Baselines are read whatever the flag says.
- **Negative baseline.** A negative baseline can only come from a clock that steps backwards. Against it, the percentage can come out negative (`Reporter.NegativeBaselinePercent`).
- **Long region names.** Keys are cut to 255 characters, and collisions start before the name fills the key. From 250 characters, `Worst` and `Worst5%` share a key, and from 251 so do `Best` and `Best5%` (`Baseline.TailKeysCollide`). With 40 or more samples and saving on, the tail metric is then compared against the value just written for its namesake and overwrites it. From 255 characters there is no room for any label, and all the region's metrics share one key (`Baseline.LongNameKeysCollide`).
- **Type names that merely contain `vec`.** `ivec3` becomes a float of 51 components, and a bare `vec` gets -48 (`Attributes.OtherVectorNames`).
- **Spacing in a declaration.** `layout(location = 0) ...` written without a space after `layout` does not start with the word `layout`, so it is not a declaration.
- **Spacing around `=`.** In `layout (location=0) in vec3 aPos;` no word is `=`, so the search for it reads to the end of the line. Every later extraction then fails, the location stays unset, and the last word `aPos;` is taken as the type name, which aborts the parse (`Attributes.UnspacedEquals`, `Attributes.ParseDeclarationNoEquals`).

## Model

| member | source | states |
|---|---|---|
| Recorder.New | srcs/classes/Profiler.cpp:16 | a new recorder has the region's name, is idle and holds no samples |
| Recorder.StartTracking | srcs/classes/Profiler.cpp:18-23 | starting always leaves the recorder tracking; the start time is `now` only if it was idle; samples are untouched |
| Recorder.StopTracking | srcs/classes/Profiler.cpp:25-30 | stopping a running recorder appends exactly one sample, now minus the start time, and keeps the earlier samples as a prefix; stopping an idle recorder changes nothing |
| Recorder.StartIdempotent | srcs/classes/Profiler.cpp:18-23 | a second start is ignored and the first start time is kept |
| Recorder.StopIdempotent | srcs/classes/Profiler.cpp:25-30 | a second stop records nothing; two stops give at most one new sample |
| Recorder.RunCyclesRecords | srcs/classes/Profiler.cpp:18-30 | from idle, a run of start/stop cycles appends one sample per cycle, each stop time minus start time, in order |
| Samples.Sort | srcs/classes/Profiler.cpp:45 | the result is ascending and is a permutation of the samples |
| Samples.SortIs | srcs/classes/Profiler.cpp:45 | any ascending permutation of the samples is their sort, so the sort is unique |
| Samples.SortOrderStatistic | srcs/classes/Profiler.cpp:45-51 | index `k` of the sorted samples holds the rank-`k` value of the unsorted samples, defined by counting alone |
| Samples.PermutationCounts | srcs/classes/Profiler.cpp:45-56 | counts and the sum do not depend on the order of the samples, so sorting before summing changes nothing |
| Statistics.TruncDiv | srcs/classes/Profiler.cpp:47-56 | C++ integer division: the quotient is rounded toward zero for negative sums too |
| Statistics.Worst5Index | srcs/classes/Profiler.cpp:50 | the worst-5% index is always a valid index |
| Statistics.Best5Index | srcs/classes/Profiler.cpp:51 | the best-5% index never exceeds the worst-5% index |
| Statistics.SummarizeRanks | srcs/classes/Profiler.cpp:45-49 | best and worst are the lowest and highest order statistics of the unsorted samples |
| Statistics.SummarizeTailRanks | srcs/classes/Profiler.cpp:50-51 | worst5 and best5 are the order statistics at ranks floor(95n/100) and floor(5n/100) |
| Statistics.SummarizeMedian | srcs/classes/Profiler.cpp:47 | odd count: the central order statistic; even count: the truncated mean of the two central order statistics |
| Statistics.SummarizeAverage | srcs/classes/Profiler.cpp:53-56 | the average is the truncated mean of the samples in recording order |
| Statistics.SummarizeSpread | srcs/classes/Profiler.cpp:48-49 | every sample lies between best and worst |
| Statistics.SummarizeBounds | srcs/classes/Profiler.cpp:45-56 | median and average lie between best and worst; best <= best5 <= worst5 <= worst |
| Statistics.UnitFor | srcs/classes/Profiler.cpp:58-71 | nanoseconds exactly below 1000 ns; otherwise the unit divides into the worst sample at least once, and below seconds it does so fewer than 1000 times |
| Statistics.UnitMonotone | srcs/classes/Profiler.cpp:58-71 | a larger worst sample never selects a smaller unit |
| Statistics.UnitBoundaries | srcs/classes/Profiler.cpp:59-71 | 999 and 1000, 999999 and 1000000, 999999999 and 1000000000 fall on either side of each unit boundary |
| Decimal.ToString | srcs/classes/Profiler.cpp:86 | non-empty, and begins with a minus sign exactly for negative values |
| Decimal.AtolToString | srcs/classes/Profiler.cpp:77-86 | `atol` reads back exactly the value `to_string` wrote |
| Decimal.ToStringAtol | srcs/classes/Profiler.cpp:77-86 | every canonical decimal text is exactly what `to_string` writes for the value `atol` reads from it |
| Baseline.Key | srcs/classes/Profiler.cpp:149-150 | the key is the prefix of name plus label that fits in 255 characters: the whole text when it fits, exactly 255 characters otherwise |
| Baseline.InsertData | srcs/classes/Profiler.cpp:146-166 | with saving off the store is unchanged; with saving on the key holds the value; every other key is untouched either way |
| Baseline.RetrieveData | srcs/classes/Profiler.cpp:168-191 | a value is found exactly when its key is stored, and it is the stored text |
| Baseline.InsertRetrieveRoundTrip | srcs/classes/Profiler.cpp:146-191 | a duration saved as decimal text reads back as the same duration |
| Baseline.InsertOverwrites | srcs/classes/Profiler.cpp:158 | a second write to a key leaves no trace of the first |
| Baseline.InsertLeavesOthers | srcs/classes/Profiler.cpp:146-191 | a write does not change what any other key reads |
| Baseline.LabelsSuffixFree | srcs/classes/Profiler.cpp:89-96 | no metric label is a suffix of another |
| Baseline.ShortKeysInjective | srcs/classes/Profiler.cpp:150 | below the length cap, two (name, label) pairs share a key only if they are the same pair |
| Baseline.TailKeysCollide | srcs/classes/Profiler.cpp:150 | `Worst` and `Worst5%` share a key exactly when the name has 250 or more characters; `Best` and `Best5%` exactly when it has 251 or more |
| Baseline.LongNameKeysCollide | srcs/classes/Profiler.cpp:150 | a name of 255 or more characters maps every label to the same key |
| Reporter.Compare | srcs/classes/Profiler.cpp:79-81 | the sign is minus exactly when current < baseline; against a positive baseline the percentage is 100 * abs(current - baseline) / baseline and never negative; a zero baseline gives infinity, or NaN when current is zero too |
| Reporter.CompareExamples | srcs/classes/Profiler.cpp:79-81 | 90 against 100 is minus 10%; 120 against 100 is plus 20% |
| Reporter.NegativeBaselinePercent | srcs/classes/Profiler.cpp:79-81 | against a negative baseline the percentage can be negative |
| Reporter.Metrics | srcs/classes/Profiler.cpp:89-97 | the labels are, in order, Average, Median, Worst, Best, then Worst5% and Best5% exactly when there are 40 or more samples |
| Reporter.Emit | srcs/classes/Profiler.cpp:76-97 | one line per metric, with its label, value and the region's unit; one lookup per metric under its key; saving off leaves the store alone; no key outside the region's is touched |
| Reporter.EmitAgainstPrior | srcs/classes/Profiler.cpp:76-97 | when the region's keys are distinct, each metric is compared with the baseline stored before the report |
| Reporter.EmitUnsaved | srcs/classes/Profiler.cpp:76-97 | with saving off, each metric is compared with the stored baseline whatever the keys |
| Reporter.EmitSaves | srcs/classes/Profiler.cpp:146-166 | with saving on and distinct keys, each key ends up holding the decimal text of its current value |
| Reporter.MetricKeysDistinct | srcs/classes/Profiler.cpp:150 | a region name of at most 248 characters gives each metric its own key |
| Reporter.LogRegion | srcs/classes/Profiler.cpp:32-98 | no samples: no lines and nothing read or written; otherwise a header, then 4 or 6 metric lines labelled in order, each carrying its metric's value, all in the unit of the worst sample; samples left as a sorted permutation; name and tracking flag kept |
| Reporter.LogRegionSorts | srcs/classes/Profiler.cpp:45 | the sort happens in place: only the samples change, and they become their ascending arrangement |
| Reporter.LogRegionRoundTrip | srcs/classes/Profiler.cpp:76-97 | for a name of at most 248 characters, every metric is compared with the baseline stored before the report; with saving on, every metric then reads back from the store exactly as its current value |
| Reporter.LogRegionUnsaved | srcs/classes/Profiler.cpp:76-97 | with saving off and any name, every metric is compared with the baseline stored before the report |
| Reporter.ThreeSampleReport | srcs/classes/Profiler.cpp:32-98 | samples of 20, 30 and 10 ms for region X with saving off print a header, then Average 20, Median 20, Worst 30 and Best 10, in ms with no deltas, and the store stays empty |
| Registry.StartTracking | srcs/classes/Profiler.cpp:107-112 | the region gets a recorder if it had none, which is then tracking; every other recorder is unchanged |
| Registry.StopTracking | srcs/classes/Profiler.cpp:114-118 | an unknown region changes nothing and creates no recorder; a known one is stopped; every other recorder is unchanged |
| Registry.SetSaveOn | srcs/classes/Profiler.cpp:193-195 | saving is on afterwards and the recorders are unchanged |
| Registry.StopTwice | srcs/classes/Profiler.cpp:114-118 | a second stop of the same region changes nothing |
| Registry.StartTwice | srcs/classes/Profiler.cpp:107-112 | a second start of the same region changes nothing |
| Registry.FirstCycle | srcs/classes/Profiler.cpp:107-118 | bracketing an unseen region registers it with exactly one sample, the elapsed time |
| Registry.Report | srcs/classes/Profiler.cpp:136-138 | the pass keeps the set of regions; with saving off it leaves the store alone |
| Registry.ReportUntouched | srcs/classes/Profiler.cpp:136-138 | a region the pass has not reached keeps its recorder |
| Registry.ReportSorts | srcs/classes/Profiler.cpp:136-138 | every region the pass reaches once is left as its own recorder with sorted samples |
| Registry.ReportPrintsTotal | srcs/classes/Profiler.cpp:136-138 | the pass prints 0, 5 or 7 lines per region, depending on its sample count |
| Registry.ReportIdle | srcs/classes/Profiler.cpp:136-138 | when no region has samples, the pass prints nothing and leaves the store alone |
| Registry.RunReport | srcs/classes/Profiler.cpp:136-138 | the loop over the regions computes the pass |
| Registry.LogAll | srcs/classes/Profiler.cpp:120-144 | saving off leaves the store alone; the regions and the flag are kept; every recorder ends sorted and otherwise unchanged; the line count is the sum over regions; with no samples anywhere, nothing is printed; the lines, the store and the recorders are exactly those of the pass that reports each region in turn against the store the previous ones left |
| LineStream.ContainsAt | srcs/classes/Shader.cpp:94 | text occurring at any position is found |
| LineStream.ContainsFound | srcs/classes/Shader.cpp:94 | text that is found occurs at some position, so with `ContainsAt` the search succeeds exactly when the text occurs |
| LineStream.ReadWord | srcs/classes/Shader.cpp:96-104 | extraction fails exactly when the stream was not good or only white space remained, and then keeps the previous token; otherwise it returns the non-empty run of non-space characters after the white space, and stops at white space or the end |
| LineStream.ReadWordOver | srcs/classes/Shader.cpp:96-104 | with white space, a word, then white space or the end still to read, extraction returns that word, and sets eof exactly when the word ends the line |
| LineStream.ReadInt | srcs/classes/Shader.cpp:100 | a stream that is not good stores nothing and fails; a successful read stores a location |
| LineStream.ReadIntDigits | srcs/classes/Shader.cpp:100 | with white space, digits, then the end or a non-digit still to read, extraction stores the digits' value, stops after the digits and sets eof exactly when they end the line |
| LineStream.ReadIntSigned | srcs/classes/Shader.cpp:100 | the same after a `-` or `+` sign: the value is negated after `-` |
| LineStream.ReadIntNoDigits | srcs/classes/Shader.cpp:100 | when the first character after the white space is neither a digit nor a sign, extraction fails, stores 0 and consumes only the white space |
| LineStream.ReadIntSignOnly | srcs/classes/Shader.cpp:100 | a sign with no digit after it fails and stores 0, consuming the sign, and sets eof when the sign ends the line |
| LineStream.ReadIntBlank | srcs/classes/Shader.cpp:100 | with only white space left, extraction fails, sets eof and stores nothing |
| LineStream.SkipPastEquals | srcs/classes/Shader.cpp:99 | the loop ends on a failed extraction or with the token `=`; a stream that is not good fails at once and keeps its token |
| LineStream.SkipPastEqualsFinds | srcs/classes/Shader.cpp:99 | the loop stops just after the first word `=` still to be read, and the stream is still usable unless that word ends the line |
| LineStream.SkipPastEqualsMisses | srcs/classes/Shader.cpp:99 | with no word `=` still to be read, the loop ends in a failed extraction, holding the last word of the line, or its token if only white space was left |
| LineStream.SkipPastWord | srcs/classes/Shader.cpp:99 | a word other than `=` with more of the line after it is read past and the loop goes on |
| LineStream.SkipPastLast | srcs/classes/Shader.cpp:99 | after the last word of the line, if it is not `=`, the loop fails holding that word |
| Attributes.TypeOf | srcs/classes/Shader.cpp:106-119 | `int` and `float` have size 1; `int` alone is GL_INT (0x1404) and every other accepted name GL_FLOAT (0x1406); a name containing `vec` is a float whose size is its 4th character read as a digit; anything else is an error naming the type |
| Attributes.GlType.Code | srcs/classes/Shader.cpp:107-115 | GL_INT is 0x1404 and GL_FLOAT is 0x1406 |
| Attributes.CharAt | srcs/classes/Shader.cpp:115 | index 3 of a 3-character name reads the terminating NUL |
| Attributes.SupportedTypes | srcs/classes/Shader.cpp:107-119 | int, float, vec2, vec3 and vec4 give their types and sizes; mat4 is refused |
| Attributes.OtherVectorNames | srcs/classes/Shader.cpp:113-115 | `ivec3` gives size 51 and `vec` gives -48 |
| Attributes.ParseLine | srcs/classes/Shader.cpp:94 | a line containing `//` yields nothing |
| Attributes.ParseDeclaration | srcs/classes/Shader.cpp:97-120 | a declaration that parses yields one attribute, of size 1 unless it is a float vector |
| Attributes.ParseLineSkips | srcs/classes/Shader.cpp:94-96 | a line yields nothing exactly when it contains `//` or its first word is not `layout` |
| Attributes.ParseAttributes | srcs/classes/Shader.cpp:89-122 | a successful parse has at most one attribute per line |
| Attributes.ParseAttributesFails | srcs/classes/Shader.cpp:116-119 | the parse fails exactly when some line fails |
| Attributes.ParseAttributesCount | srcs/classes/Shader.cpp:94-121 | a successful parse yields exactly one attribute per declaration line |
| Attributes.ParseAttributesOrder | srcs/classes/Shader.cpp:90-122 | attributes come in file order: a declaration follows one attribute per declaration line before it |
| Attributes.DeclarationRoundTrip | srcs/classes/Shader.cpp:96-120 | `layout (location = N) in TYPE NAME` parses back to location N and the type and size of TYPE, and fails naming TYPE when TYPE is not supported |
| Attributes.ParseDeclarationNoEquals | srcs/classes/Shader.cpp:99-119 | a declaration with no word `=` after `layout` leaves the location unset and takes the last word of the line as the type name |
| Attributes.UnspacedEquals | srcs/classes/Shader.cpp:94-119 | `layout (location=N) in TYPE NAME` leaves the location unset and takes NAME as the type, so `aPos;` is refused as a type |
| Shader.Classify | srcs/classes/Shader.cpp:27-43 | vertex exactly when the name contains `vertex_shader`; fragment exactly when it contains `fragment_shader` but not `vertex_shader`; geometry exactly when only `geometry_shader` matches |
| Shader.StageOf | srcs/classes/Shader.cpp:23 | only regular files contribute a stage |
| Shader.AttributesOf | srcs/classes/Shader.cpp:27-32 | only vertex files contribute attributes |
| Shader.Construct | srcs/classes/Shader.cpp:18-54 | success requires a vertex and a fragment stage; the mask has exactly the bits of the supplied stages; stages are attached in folder order; an attribute error is reported exactly when some vertex file fails to parse; a missing stage is reported exactly otherwise |
| Shader.Collect | srcs/classes/Shader.cpp:22-45 | the loop over the folder computes the stage mask, the attached stages and the vertex attributes, stopping with the first parse error |
| Shader.StageMaskSupplies | srcs/classes/Shader.cpp:12-47 | the mask's bit for a stage is set exactly when some entry supplies that stage, and no other bit is set |
| Shader.VertexAttributesFailPersists | srcs/classes/Shader.cpp:32 | once a file fails to parse, the whole folder fails with the same error |
| Shader.GetUniformLocation | srcs/classes/Shader.cpp:177-184 | a cached name is answered from the cache, which is unchanged; any other name is queried once and remembered; other entries are kept |
| Shader.CachedAnswersQuery | srcs/classes/Shader.cpp:177-184 | a cache that agrees with the GL stays in agreement, and the lookup answers as the GL would |
| Shader.LookupIdempotent | srcs/classes/Shader.cpp:177-184 | looking the same name up again changes nothing and gives the same answer |
| Shader.LookupAllAnswersQuery | srcs/classes/Shader.cpp:177-184 | a run of lookups answers every name as the GL would, and the cache ends up holding exactly the names asked for plus what it held |
| Shader.Use | srcs/classes/Shader.cpp:125-130 | the shader becomes active; `glUseProgram` is issued exactly when another shader was active |
| Shader.UseKeepsSync | srcs/classes/Shader.cpp:125-130 | skipping the call is safe: GL's current program is always the active shader's program |
| Shader.UseIdempotent | srcs/classes/Shader.cpp:125-130 | using the same shader twice is using it once |
| Shader.UseAllIssues | srcs/classes/Shader.cpp:125-130 | a run of `Use` calls issues one `glUseProgram` per change of active shader, and only appends to what was issued |

## Left out

- **The clock.** `high_resolution_clock::now()` becomes an integer nanosecond parameter of the start and stop operations.
- **64-bit overflow.** The chrono tick count is a signed 64-bit integer, while the model uses unbounded integers, so overflow of a sample, the sum or a difference is not modelled.
- **Overflow in `atol` and in `>> int`.** Out-of-range text is not modelled: `atol` is undefined there, and `>> int` clamps and sets the fail bit.
- **Percentile indices.** `(size_t)(0.95 * n)` and `(size_t)(0.05 * n)` are taken as floor(95n/100) and floor(5n/100). Double rounding could differ for huge `n`.
- **Percentages.** The percentage is computed with exact reals, so double rounding is not modelled. The scaled display value `count / divider`, `setprecision(4)` and every other piece of `std::cout` formatting are also left out. A line carries the raw value, its unit and its delta.
- Reporter.LogRegionRoundTrip: covers names of at most 248 characters with saving on. For longer names the model states the key collisions (`Baseline.TailKeysCollide`, `Baseline.LongNameKeysCollide`) but not the deltas that colliding metrics then print. With saving off, `Reporter.LogRegionUnsaved` covers every name.
- Reporter.Compare: states the percentage exactly only for a positive baseline. For a negative baseline it only states the sign, with one concrete example (`Reporter.NegativeBaselinePercent`).
- Attributes.ParseDeclaration: its own contract states only the shape of a successful result. The complete behaviour is stated by lemmas for two cases: a well-spaced declaration (`Attributes.DeclarationRoundTrip`) and a line with no word `=` (`Attributes.ParseDeclarationNoEquals`). Other layouts are covered one extraction at a time, by the `LineStream` lemmas for word and number extraction and for the search for `=`.
- **LMDB.** Environment creation and opening, transactions, the database file path and every error path (the `assert`s) are left out. The store is a map whose operations cannot fail.
- **The "Key not found" message.** `RetrieveData` prints it on a miss, and the model leaves that printing out.
- **Encodings.** Strings are sequences of characters, whereas the C++ code works on bytes. The 255-character key limit counts characters where `snprintf` counts UTF-8 bytes. `Attributes.TypeOf` reads `typeName[3]` as a character where `std::string` yields a byte.
- **Where the report goes.** The log file and the redirection of `std::cout` in `Profiler::LogData` are left out.
- **Order of the regions.** The iteration order of `std::unordered_map` is unspecified. `Registry.LogAll` takes the order as a parameter that lists every region once.
- **Region identity.** `const char*` identity becomes a `Region` value with an address and a text.
- **Leaks.** Leaked `ProfilerObject` allocations, and the `strndup` buffer that `RetrieveData` returns and nobody frees, are not modelled.
- **File I/O and directory order.** Directory iteration, file opening (`assert(0)` on failure) and reading are left out. A folder is a sequence of entries, each holding its file name and its lines in folder order.
- **GL calls.** GL object creation, `CompileSingleShader`, `glAttachShader`, `glLinkProgram` and `CheckCompileErrors` are left out because they are foreign calls. `glGetUniformLocation` becomes a fixed function parameter.
- **Aborts.** A failed `assert(0)` aborts, or does nothing under `NDEBUG`. The model returns an error result instead. The unsupported-type message and the missing-stage message on `std::cerr` are left out.
- **The uniform setters** (`SetBool`, `SetInt`, `SetFloat`, `SetFloat4`, `Setmat4`) and the accessors `GetVertexAttributes` and `GetActiveShader` are left out, because they only forward to GL or return a field.
- **The attribute record.** `t_vertexAttribute` is declared in `Shader.hpp`, which is not part of this model. Its location field is modelled as a signed integer that may be unset.
- **`getline`.** The model assumes a trailing carriage return is part of the line and is white space to `>>`. A line break is never part of a line.
- **Other code.** `main.cpp`, the thread pool, the scoped profiler, `Entity` and the VAO handler are not part of this model.
