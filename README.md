# qr-benchmarks in Dafny

qr-benchmarks measures how well independent Go QR-code libraries work together. The encoders and decoders cover every pairing, run over a grid of payload sizes, image sizes, content types and error-correction levels. For every triple of test case, encoder and decoder, it records whether the data made the round trip unchanged. If it did not, it records why: the encoder ran out of capacity or failed, the decoder failed, or the decoded data differs. Reports are built from the result list: JSON files grouped by encoder and by decoder, and one Markdown report per encoder and decoder pair. A site generator folds the JSON files into per-encoder, per-decoder and per-pair tables.

This project models that core and proves what it computes:

- `Geometry` (`geometry.dfy`) is the QR module geometry. A version has 17 + 4·version modules, the standard's side length. The quiet zone is 4 modules. Module widths are exact rationals, a width is either fractional or whole, and there is a smallest safe image size.
- `Corpus` (`generator.dfy`), `Utf8` (`utf8.dfy`) and `Decimal` (`decimal.dfy`) build the test corpus. The payload generators cover numeric, alphanumeric (the 45-character set), random bytes and multi-script UTF-8 text cut at a character boundary. `formatInt` gives decimal text. The test names and the three four-deep grids are built here too.
- `Matrix` (`matrix.dfy`) is the runner. `RunAll` rejects empty inputs, then runs the triple loop. `runTest` runs encode, version probe, decode and compare for one triple and classifies the outcome.
- `Config` (`config.dfy`) holds the default configuration, the ordered `Validate` chain and the comma-list parsers.
- `JsonReport` (`report_json.dfy`) covers the JSON record, converting a result into one, and grouping by encoder and by decoder.
- `MarkdownReport` (`report_markdown.dfy`) holds the numbers behind each Markdown report section. This covers the summary counts, the size-by-size matrix and the failure analysis with its pixel-size patterns. It also covers the non-monotonic-failure check and the module-size table.
- The site generator is modelled by five modules:
  - `SiteData` (`site_data.dfy`) covers reading records back, first-occurrence deduplication, `splitKey`, counting and rates;
  - `SiteStats` (`site_stats.dfy`) covers encoder and decoder statistics;
  - `SiteCombinations` (`site_combinations.dfy`) covers the pair table and the best pair;
  - `SiteFailures` (`site_failures.dfy`) covers the failure breakdowns;
  - `SiteSummary` (`site_summary.dfy`) covers the summary.
- `Common` (`common.dfy`) holds the shared sequence tools: counting, filtering, a sort, and map keys in arbitrary order.

Loops in the source are methods with loop invariants. Each is proved against a recursive function that states what the loop computes, and the properties are proved as lemmas about those functions. Adapters are values that hold total functions: a name, encode, the capacity-error test and decode. The clock, `math/rand`, `runtime.NumCPU` and the text of error messages are given to the model as parameters. Go map iteration is modelled by an arbitrary choice, so what is proved holds for every iteration order.

## Model

| member | source | states |
|---|---|---|
| Geometry.DetectQRVersion | internal/testdata/module_calc.go:23-28 | the version is always -1 and an error is always reported, for a nil image and for any other |
| Geometry.CalculateModuleCount | internal/testdata/module_calc.go:39-44 | 17 + 4·version for versions 1..40, and 0 for every other version |
| Geometry.ModuleCountRange | internal/testdata/module_calc.go:39-44 | for versions 1..40 the count lies in 21..177, gives the version back as (count − 17)/4, and grows by 4 per version |
| Geometry.CalculateModulePixelSize | internal/testdata/module_calc.go:64-69 | 0 when the image size or module count is not positive or the quiet zone is negative; otherwise a positive width that times (modules + quiet zone) is exactly the image size, with no truncation |
| Geometry.IsFractionalModuleSize | internal/testdata/module_calc.go:82-84 | a width is fractional exactly when it lies strictly above its floor, that is, when its fractional part is not zero |
| Geometry.IntegersAreNotFractional | internal/testdata/module_calc.go:82-84 | no whole number, the 0 sentinel included, is a fractional module width |
| Geometry.FractionalIffNotDivisible | internal/testdata/module_calc.go:64-84 | on valid input the module width is fractional exactly when the image size is not a multiple of modules + quiet zone |
| Geometry.CalculateOptimalPixelSize | internal/testdata/module_calc.go:101-112 | 0 when the module count is not positive or the quiet zone is negative; otherwise a multiple of modules + quiet zone that is at least 100 and less than one step above 100 |
| Geometry.OptimalBounds | internal/testdata/module_calc.go:106-111 | rounding 100 / (modules + quiet zone) up gives a multiplier whose multiple is the first one at or above 100 |
| Geometry.OptimalSizeIsLeast | internal/testdata/module_calc.go:106-111 | no multiple of modules + quiet zone that is at least 100 is smaller than the safe size |
| Geometry.OptimalSizeRoundTrip | internal/testdata/module_calc.go:101-112 | the safe size fed back through the module-width computation gives a positive, non-fractional width |
| Corpus.AlphanumericValue | internal/testdata/generator.go:394 | the value (0..44) of a byte in the 45-character QR alphanumeric set, −1 outside it; only ASCII bytes have a value |
| Corpus.NumericTable | internal/testdata/generator.go:372 | the digit pattern is the ten bytes '0'..'9' in order |
| Corpus.AlphanumericTable | internal/testdata/generator.go:394 | the alphanumeric pattern has 45 bytes and its i-th byte has alphanumeric value i (the table order of ISO/IEC 18004:2015, section 7.4.4) |
| Corpus.AlphanumericDigits | internal/testdata/generator.go:394 | characters 0..9 of the alphanumeric pattern have values 0..9 |
| Corpus.AlphanumericLettersLow | internal/testdata/generator.go:394 | characters 10..22 of the alphanumeric pattern have values 10..22 |
| Corpus.AlphanumericLettersFirst | internal/testdata/generator.go:394 | characters 10..15 of the alphanumeric pattern have values 10..15 |
| Corpus.AlphanumericLettersSecond | internal/testdata/generator.go:394 | characters 16..22 of the alphanumeric pattern have values 16..22 |
| Corpus.AlphanumericLettersHigh | internal/testdata/generator.go:394 | characters 23..35 of the alphanumeric pattern have values 23..35 |
| Corpus.AlphanumericSymbols | internal/testdata/generator.go:394 | the pattern has 45 characters and characters 36..44 (space and the eight symbols) have values 36..44 |
| Corpus.NumericData | internal/testdata/generator.go:367-380 | empty for a size ≤ 0; otherwise exactly `size` bytes, byte i being '0' + i mod 10, all digits |
| Corpus.GenerateNumeric | internal/testdata/generator.go:367-380 | the fill loop produces exactly the digit payload |
| Corpus.AlphanumericData | internal/testdata/generator.go:387-402 | empty for a size ≤ 0; otherwise exactly `size` bytes, byte i having alphanumeric value i mod 45, all in the QR alphanumeric set |
| Corpus.GenerateAlphanumeric | internal/testdata/generator.go:387-402 | the fill loop produces exactly the alphanumeric payload |
| Corpus.FillPeriodic | internal/testdata/generator.go:373-377 | the index loop fills the buffer with the pattern repeated, to exactly the requested length |
| Corpus.Periodic | internal/testdata/generator.go:424-430 | the first n bytes of the endless repetition of the pattern have length n |
| Corpus.PeriodicAppend | internal/testdata/generator.go:424-426 | appending one more copy of the pattern to whole copies gives one more whole copy |
| Corpus.LongestValidPrefix | internal/testdata/generator.go:430-433 | the result is a valid UTF-8 prefix of the input and no longer prefix is valid |
| Corpus.LongestValidPrefixUnique | internal/testdata/generator.go:430-433 | any valid prefix with no longer valid prefix is the one the trimming loop stops at |
| Corpus.Utf8Data | internal/testdata/generator.go:414-436 | empty for a size ≤ 0; otherwise the longest valid-UTF-8 prefix of the repeated pattern cut to `size` bytes |
| Corpus.EncodedRepeat | internal/testdata/generator.go:421-426 | the bytes of k copies of the pattern text are k whole periods of the pattern's bytes |
| Corpus.RepeatedTruncation | internal/testdata/generator.go:430-433 | cutting the repetition of any encoded text back to valid UTF-8 loses at most three bytes |
| Corpus.Utf8DataProperties | internal/testdata/generator.go:414-436 | for a positive size the payload is valid UTF-8, a prefix of the repeated pattern, at most `size` bytes and at most three bytes short |
| Corpus.GenerateUTF8 | internal/testdata/generator.go:414-436 | the append-then-trim loops produce exactly the UTF-8 payload |
| Corpus.RepeatToBoundary | internal/testdata/generator.go:422-433 | appending whole copies until the size is reached, cutting to the size and trimming until valid gives the longest valid prefix of the repetition |
| Corpus.GenerateBinary | internal/testdata/generator.go:448-461 | empty for a size ≤ 0; otherwise exactly `size` bytes, byte i being entry i of the seeded stream |
| Corpus.BinaryPrefix | internal/testdata/generator.go:448-461 | deterministic and prefix-consistent: a shorter request yields a prefix of a longer one |
| Corpus.FormatInt | internal/testdata/generator.go:511-541 | the count-then-fill loops produce the canonical decimal form: "0" for 0, a '-' prefix for negatives, no leading zero |
| Corpus.FormatTestName | internal/testdata/generator.go:479-488 | the builder produces content + "-" + decimal(data size) + "b-" + decimal(pixel size) + "px" |
| Corpus.FormatTestNameWithEC | internal/testdata/generator.go:497-507 | the builder produces the same name followed by "-ec" and the error correction level |
| Corpus.TestNameShape | internal/testdata/generator.go:497-507 | the name with level is the name without level followed by "-ec" and the level |
| Corpus.TestNameWithECInjective | internal/testdata/generator.go:497-507 | a name determines its content label (holding no '-'), both non-negative sizes and its level |
| Corpus.SplitNumber | internal/testdata/generator.go:501-504 | two non-negative decimal forms each followed by a non-digit split the same way |
| Corpus.ContentLabel | internal/testdata/generator.go:119-124 | the label of a content type in test names holds no '-' |
| Corpus.ContentFromLabel | internal/testdata/generator.go:119-124 | reading a label back gives a content type whose label it is |
| Corpus.ContentLabelRoundTrip | internal/testdata/generator.go:119-124 | each of the four content types is read back from its label |
| Corpus.ContentLabelInjective | internal/testdata/generator.go:119-124 | distinct content types have distinct labels |
| Corpus.PayloadConforms | internal/testdata/generator.go:118-125 | every payload fits its content type: digits, alphanumeric characters, valid UTF-8 or any bytes |
| Corpus.PayloadLength | internal/testdata/generator.go:118-125 | for a positive size every payload has that length, except UTF-8, which is at most three bytes short |
| Corpus.GeneratePayload | internal/testdata/generator.go:118-125 | the switch yields the payload and the label of the content type |
| Corpus.GridCaseDefined | internal/testdata/generator.go:109-141 | the grid has a case at exactly the positions below the product of the four axis lengths |
| Corpus.GridCaseAt | internal/testdata/generator.go:111-137 | the case at the position with coordinates (a, b, c, e) takes each field from its loop variable |
| Corpus.GridPrefixExtend | internal/testdata/generator.go:130-137 | appending the next case of the grid keeps the cases built so far a prefix of the grid |
| Corpus.MakeCase | internal/testdata/generator.go:115-137 | the innermost loop body builds the case of its four loop values |
| Corpus.AppendErrorLevels | internal/testdata/generator.go:114-138 | the innermost loop appends one case per error correction level, in order |
| Corpus.BuildMatrix | internal/testdata/generator.go:109-143 | the four nested loops give one case per combination of the axes, in data size → pixel size → content type → level order |
| Corpus.GridCoords | internal/testdata/generator.go:111-114 | a position inside the grid has coordinates in range that give back the case found there |
| Corpus.MatrixNameDetermines | internal/testdata/generator.go:128 | over axes without repeats, non-negative sizes and the four content types, a case's name gives back its coordinates |
| Corpus.GridNameDetermines | internal/testdata/generator.go:128 | two positions of such a grid that carry one name are one position |
| Corpus.GridNamesDistinct | internal/testdata/generator.go:128-137 | the names of such a grid are pairwise distinct |
| Corpus.PixelMatrixAxes | internal/testdata/generator.go:95-107 | the pixel-size matrix's axes have no repeats and non-negative sizes, so its names identify its cases |
| Corpus.GeneratePixelSizeMatrix | internal/testdata/generator.go:93-144 | 4 × 6 × 2 × 2 = 96 cases in nesting order, each built from its axis values, with distinct names |
| Corpus.ComprehensiveAxes | internal/testdata/generator.go:191-229 | the comprehensive matrix's axes have no repeats and non-negative sizes |
| Corpus.GenerateComprehensiveMatrix | internal/testdata/generator.go:188-273 | 9 × 11 × 4 × 3 = 1188 cases in nesting order, each built from its axis values, with distinct names |
| Corpus.EdgeCase | internal/testdata/generator.go:294-358 | an edge case is at 480 px and level "M", and its data size is the length of its data |
| Corpus.GenerateEdgeCases | internal/testdata/generator.go:287-360 | eight cases at 480 px and level "M", each with its name, its content type and the exact length of data that fits that type: "empty-ecM" and "single-byte-ecM" binary with no byte and one byte, "numeric-small-ecM" and "numeric-large-ecM" with 50 and 500 digits, "alphanumeric-url-ecM" and "alphanumeric-large-ecM" with 50 and 1000 alphanumerics, and "utf8-multilingual-ecM" and "utf8-emoji-ecM" with the two UTF-8 texts |
| Utf8.FirstCharLen | internal/testdata/generator.go:431 | the length (1..4) of the well-formed character at the front under the UTF8-octets grammar of RFC 3629, section 4, or 0 |
| Utf8.EncodeChar | internal/testdata/generator.go:468-470 | a character encodes as 1 to 4 bytes |
| Utf8.Encode | internal/testdata/generator.go:468-470 | a string encodes as at least one byte per character |
| Utf8.EncodeAscii | internal/testdata/generator.go:468-470 | ASCII text encodes as itself, one byte per character |
| Utf8.EncodeAppend | internal/testdata/generator.go:468-470 | the encoding of a concatenation is the concatenation of the encodings |
| Utf8.EncodeCharWellFormed | internal/testdata/generator.go:431 | the grammar recognises each encoded character with its full length, whatever follows |
| Utf8.ValidAppend | internal/testdata/generator.go:431 | two valid byte sequences concatenate into a valid one |
| Utf8.FirstCharLenPrefix | internal/testdata/generator.go:431 | the first character's length depends only on the bytes it covers |
| Utf8.EncodeValid | internal/testdata/generator.go:468-470 | every encoded string is valid UTF-8 |
| Utf8.EncodeCharValid | internal/testdata/generator.go:468-470 | every encoded character is valid UTF-8 |
| Utf8.EncodeHasNearBoundary | internal/testdata/generator.go:430-433 | within three bytes below any cut of an encoded string there is a cut that leaves valid UTF-8 |
| Decimal.DigitChar | internal/testdata/generator.go:533 | '0' + d is a digit character of value d |
| Decimal.DigitValue | internal/config/config.go:202 | the value of a digit character, the inverse of DigitChar |
| Decimal.Digits | internal/testdata/generator.go:523-535 | the digits of a natural number are all digits, empty exactly for 0, and never start with '0' |
| Decimal.DigitsValue | internal/config/config.go:202 | the value of a digit string starting with a non-zero digit is positive |
| Decimal.DecimalString | internal/testdata/generator.go:511-541 | the decimal form of any integer is non-empty |
| Decimal.DecimalStringForm | internal/testdata/generator.go:511-541 | "0" for 0, digits for a positive, '-' then digits for a negative, never a leading zero |
| Decimal.Atoi | internal/config/config.go:202 | strconv.Atoi in base 10 succeeds exactly on an optional sign followed by at least one digit |
| Decimal.DigitsRoundTrip | internal/testdata/generator.go:523-535 | the digits of n have value n |
| Decimal.DigitsCanonical | internal/testdata/generator.go:523-535 | a digit string without a leading zero is the digits of its value |
| Decimal.DecimalRoundTrip | internal/testdata/generator.go:511-541 | parsing the decimal form of any integer gives it back |
| Decimal.AtoiUnsigned | internal/config/config.go:202 | digits alone parse as their value |
| Decimal.AtoiNegative | internal/config/config.go:202 | '-' before digits parses as the negated value of the digits |
| Decimal.DecimalStringInjective | internal/testdata/generator.go:511-541 | distinct integers have distinct decimal forms |
| Config.DefaultConfig | internal/config/config.go:65-79 | the defaults: the six data sizes 500 to 800, the eight pixel sizes 320 to 560, all four levels, the markdown and html formats, the CPU count as worker count and a ten-second timeout |
| Config.DefaultConfigValid | internal/config/config.go:65-79 | with a positive CPU count the defaults pass every check of Validate |
| Config.IsValidErrorLevel | internal/config/config.go:229-236 | true exactly for the one-letter strings "L", "M", "Q" and "H" |
| Config.ErrorLevelCaseSensitive | internal/config/config.go:229-236 | a lower-case level is refused |
| Config.IsValidOutputFormat | internal/config/config.go:239-246 | an accepted format is 3 to 8 characters long and starts with 'm', 'h' or 'c' |
| Config.OutputFormatExact | internal/config/config.go:239-246 | true exactly for "markdown", "html" and "csv" |
| Config.FirstRefused | internal/config/config.go:163-167 | no position exactly when every element is accepted; otherwise the position of a refused element |
| Config.FirstRefusedAt | internal/config/config.go:163-167 | a refused element after only accepted ones is the one reported |
| Config.FindRefused | internal/config/config.go:163-167 | the loop over a list stops at the first refused element |
| Config.Checks | internal/config/config.go:149-189 | the eight checks of Validate in source order, the level check fourth and the format check last |
| Config.FirstFailureMeaning | internal/config/config.go:149-189 | the first failure is absent exactly when every check passes, and otherwise is a failing check with only passing ones before it |
| Config.FirstFailureAt | internal/config/config.go:149-189 | a failing check after only passing ones is the first failure |
| Config.ValidationErrorIsFirstFailure | internal/config/config.go:149-189 | the early-return chain reports the first of the eight checks that fails on its own |
| Config.FirstFourChecks | internal/config/config.go:149-167 | when one of the first four checks fails, the chain reports the first failure |
| Config.LastFourChecks | internal/config/config.go:169-186 | when the first four checks pass, the chain reports the first failure among the last four |
| Config.ValidationErrorMeaning | internal/config/config.go:149-189 | Validate succeeds exactly when the four lists (data sizes, pixel sizes, levels, formats) are non-empty, every level and format is valid, and timeout and worker count are positive; otherwise it reports a failing check |
| Config.ChecksPass | internal/config/config.go:149-189 | all eight checks pass exactly when the configuration meets every demand |
| Config.Validate | internal/config/config.go:149-189 | the chain of early returns gives exactly the first failing check, or none |
| Config.Split | internal/config/config.go:193 | strings.Split gives at least one piece, none holding the separator |
| Config.JoinSplit | internal/config/config.go:193 | the pieces joined back by the separator give the input |
| Config.SplitJoin | internal/config/config.go:193 | pieces without the separator come back from splitting their join |
| Config.SplitNoSep | internal/config/config.go:193 | text without the separator splits into itself alone |
| Config.SplitPrefix | internal/config/config.go:193 | a piece without separators followed by a separator splits off first |
| Config.LeadingSpace | internal/config/config.go:197 | the length of the leading white-space run is at most the length of the text |
| Config.LeadingSpaceMeaning | internal/config/config.go:197 | the leading run is white space and what follows it is not |
| Config.TrailingSpace | internal/config/config.go:197 | the length of the trailing white-space run is at most the length of the text |
| Config.TrailingSpaceMeaning | internal/config/config.go:197 | the trailing run is white space and what precedes it is not |
| Config.TrimSpace | internal/config/config.go:197 | trimming never lengthens the text |
| Config.TrimSpaceInfix | internal/config/config.go:197 | the trimmed text is a contiguous part of the input and what is dropped on either side is white space |
| Config.TrimSpaceEnds | internal/config/config.go:197 | the trimmed text starts and ends with non-white space, and is empty exactly when the input is all white space |
| Config.TrimSpaceIdempotent | internal/config/config.go:197 | trimming twice is trimming once |
| Config.Kept | internal/config/config.go:218-223 | the kept pieces are no more than the pieces and none is empty |
| Config.KeptIsFilter | internal/config/config.go:218-223 | the kept pieces are the trimmed pieces with the empty ones left out, in order |
| Config.KeptTrimmed | internal/config/config.go:218-223 | every kept piece is already trimmed |
| Config.KeptStep | internal/config/config.go:218-223 | one more piece adds its trimmed form when that is not empty, and nothing otherwise |
| Config.Trimmed | internal/config/config.go:219 | each piece trimmed, one for one |
| Config.StringList | internal/config/config.go:214-226 | parseStringSlice returns no more strings than there are comma-separated parts, and none of them is empty |
| Config.ParseStringSlice | internal/config/config.go:214-226 | the loop produces exactly the trimmed, non-empty parts in input order |
| Config.AtoiAll | internal/config/config.go:196-210 | success exactly when every string is an integer, and then the integers one for one in order |
| Config.AtoiAllFailure | internal/config/config.go:202-205 | the error names a string that is not an integer |
| Config.IntsOfIsAtoiKept | internal/config/config.go:192-211 | parseIntSlice is the string-list parse followed by Atoi on every kept piece |
| Config.IntListMeaning | internal/config/config.go:192-211 | parseIntSlice succeeds exactly when every kept piece is an integer, giving them in order; otherwise it reports the first kept piece that is not one |
| Config.IntsOfStep | internal/config/config.go:196-208 | one more piece is skipped when empty after trimming, appended as an integer, or ends the parse with an error |
| Config.IntsOfFailure | internal/config/config.go:202-205 | a piece that is not an integer after integers decides the result |
| Config.IntsOfFailureSticks | internal/config/config.go:203-205 | once a prefix of the pieces fails, the whole list fails with the same error |
| Config.ParseIntSlice | internal/config/config.go:192-211 | the loop's early return and appends produce exactly the parse result |
| Matrix.ContentTypeToString | internal/matrix/runner.go:229-242 | "numeric", "alphanumeric", "binary" or "utf8" for the four content types, "unknown" for any other value |
| Matrix.ContentTypeToStringInjective | internal/matrix/runner.go:229-242 | the four known content types get distinct names, none of them "unknown" |
| Matrix.ProbeModules | internal/matrix/runner.go:136-145 | the module fields change only when the probe reports no error and a version > 0, and then hold the version, its module count and the module width with the 4-module quiet zone |
| Matrix.RunTest | internal/matrix/runner.go:107-170 | building the result field by field with its early returns gives exactly the outcome of the cycle |
| Matrix.OutcomeFields | internal/matrix/runner.go:108-116 | names, sizes and content type are copied from the inputs, the version stays −1 and the module count 0 (the probe never succeeds), and Success and DataMatches stay false |
| Matrix.OutcomeClassification | internal/matrix/runner.go:128-167 | an encode error carries the encoder's capacity verdict and no decode time; otherwise a decode error, a mismatch of the two lengths, or no error exactly when the decoded bytes equal the original |
| Matrix.EncodeFailureSkipsDecoder | internal/matrix/runner.go:128-132 | when encoding fails the decoder is never consulted: two decoders give the same result apart from the recorded decoder name |
| Matrix.EncodesAtLevelM | internal/matrix/runner.go:119-125 | the encoder is asked only for the case's data at level "M" and the case's pixel size |
| Matrix.RunPrefixAppend | internal/matrix/runner.go:73-78 | appending the outcome of the next triple keeps the results a prefix of the run |
| Matrix.RunDecoders | internal/matrix/runner.go:74-81 | the innermost loop appends one result per decoder, in order |
| Matrix.RunCases | internal/matrix/runner.go:68-83 | the two outer loops give cases × encoders × decoders results in nesting order and collect exactly the sizes occurring in the cases |
| Matrix.SizesOfSnoc | internal/matrix/runner.go:70-71 | each case adds its data size and pixel size to the collected sets |
| Matrix.RunAll | internal/matrix/runner.go:39-103 | fails with no encoders, then no decoders, then no test cases, in that order, and succeeds otherwise with E·D·T results in nesting order, the names in input order and duplicate-free size lists holding exactly the sizes of the cases |
| Matrix.RunAllIndex | internal/matrix/runner.go:69-77 | the result of case t, encoder e and decoder d sits at (t·E + e)·D + d and is that triple's outcome |
| Matrix.RunResultsFromAxes | internal/matrix/runner.go:69-77 | every result names a given encoder and decoder and has the sizes of a given case |
| Common.MapKeys | internal/matrix/runner.go:86-94 | the keys of a set in some order, each exactly once |
| Common.SortBy | cmd/generate-site/main.go:332-334 | sorting is a permutation of the input (same multiset, same length) |
| Common.SortBySorted | cmd/generate-site/main.go:332-334 | the sorted list is ordered by the comparison |
| Common.SortByElements | cmd/generate-site/main.go:332-334 | the sorted list holds exactly the elements of the input |
| JsonReport.ToMilliseconds | pkg/report/json.go:174-176 | a duration is truncated to whole microseconds and then divided by 1000, never negative |
| JsonReport.ToMillisecondsMonotone | pkg/report/json.go:174-176 | longer durations never give fewer milliseconds, and more whole microseconds give strictly more |
| JsonReport.ErrorTypeTag | pkg/report/json.go:140-153 | the tag is "encode", "decode" or "dataMismatch" exactly for the three known kinds, and empty exactly for an unknown kind |
| JsonReport.ConvertResult | pkg/report/json.go:121-157 | Success exactly when there is no error; with no error both error fields are empty, with one the message is its text and the tag its kind; names, sizes, content type and module fields are copied and the times converted to milliseconds |
| JsonReport.SlashFree | pkg/report/json.go:179-190 | same length, no '/' left, and every other character kept in place |
| JsonReport.SanitizeFilename | pkg/report/json.go:179-190 | the character loop produces exactly the slash-free name |
| JsonReport.SlashFreeIdempotent | pkg/report/json.go:179-190 | a name without '/' is kept, so sanitizing twice is sanitizing once |
| JsonReport.SlashFreeCollides | pkg/report/json.go:179-190 | "a/b" and "a_b" get the same file name |
| JsonReport.ConvertAll | pkg/report/json.go:69-70 | one converted record per result, in order |
| JsonReport.ConvertAllSnoc | pkg/report/json.go:69-70 | converting one more result appends its record |
| JsonReport.GroupsKeys | pkg/report/json.go:68-72 | the grouping has a list under exactly the keys that results carry |
| JsonReport.GroupsContents | pkg/report/json.go:68-72 | the list under a key is the results with that key, converted, in their original order, so every result lands in exactly one group |
| JsonReport.GroupResults | pkg/report/json.go:68-72 | the grouping loop builds exactly that map |
| JsonReport.EncoderFiles | pkg/report/json.go:61-88 | the encoder files hold the results grouped by encoder name |
| JsonReport.DecoderFiles | pkg/report/json.go:91-118 | the decoder files hold the results grouped by decoder name |
| SiteData.ReadBack | cmd/generate-site/main.go:13-29 | a record read from a JSON file takes over its fields and has the capacity flag false, since the file has no such field |
| SiteData.ReadBackRoundTrip | pkg/report/json.go:29-44 | reading back loses nothing the file holds, and writing out loses exactly the capacity flag |
| SiteData.CapacityFlagLost | pkg/report/json.go:121-157 | a result the runner flagged as a capacity error reaches the site generator as an ordinary failed encode record |
| SiteData.DecimalNoBar | cmd/generate-site/main.go:211 | the decimal form of a size holds no '|' |
| SiteData.BarInjective | cmd/generate-site/main.go:211 | two '|'-joins whose first parts hold no '|' are the same join |
| SiteData.DedupKeyInjective | cmd/generate-site/main.go:211 | with no '|' in the encoder and decoder names, the key gives back encoder, decoder, both sizes and the content type |
| SiteData.UniqueKeys | cmd/generate-site/main.go:207-217 | the kept records have pairwise distinct keys and together every key of the input |
| SiteData.UniqueFromInput | cmd/generate-site/main.go:207-217 | every kept record is an input record |
| SiteData.UniqueKeepsFirst | cmd/generate-site/main.go:212-215 | the first record with a given key is kept |
| SiteData.UniquePrefix | cmd/generate-site/main.go:210-216 | order is kept: what is kept of a prefix of the input comes first, in the same order |
| SiteData.UniqueOfDistinct | cmd/generate-site/main.go:207-217 | input whose keys are already distinct is kept whole |
| SiteData.UniqueIdempotent | cmd/generate-site/main.go:207-217 | deduplicating twice is deduplicating once |
| SiteData.UniqueStep | cmd/generate-site/main.go:210-216 | one more record adds its key to the seen keys and is kept exactly when its key is new |
| SiteData.KeysOfSnoc | cmd/generate-site/main.go:213 | the keys of a list are the keys of all but its last record plus the last one's |
| SiteData.Dedup | cmd/generate-site/main.go:207-217 | the loop with its set of seen keys keeps exactly the first record per key |
| SiteData.SplitAtBar | cmd/generate-site/main.go:695-702 | two parts, the first without '|'; a key without '|' gives the key and ""; otherwise the parts joined by '|' give the key back |
| SiteData.SplitAtBarJoin | cmd/generate-site/main.go:695-702 | a key built from a name without '|' splits back into its two names |
| SiteData.SplitKey | cmd/generate-site/main.go:695-702 | the scan for the first '|' produces exactly that split |
| SiteData.PairKeyCollision | cmd/generate-site/main.go:438 | names holding '|' make pairs share a key: x with y|z and x|y with z are one key, split as x and y|z |
| SiteData.TallyOf | cmd/generate-site/main.go:263-289 | of the records counted, skips and successes are each at most the tests |
| SiteData.Count | cmd/generate-site/main.go:270-277 | counting one more record adds one test |
| SiteData.TallyOfSnoc | cmd/generate-site/main.go:270-277 | the tally of a list is the tally of all but its last record, counted once more when the last record qualifies |
| SiteData.Rate | cmd/generate-site/main.go:309-313 | 0 when the effective tests are not positive; otherwise exactly successes / effective · 100, a percentage when successes are within the effective tests |
| SiteData.SuccessesWithinEffective | cmd/generate-site/main.go:309-313 | when no success is also a capacity skip, successes are at most tests minus skips, so the rate is a percentage |
| SiteData.ReadBackNoSkips | cmd/generate-site/main.go:275-277 | records read back from JSON files never count as capacity skips |
| SiteData.NoSkipsCounted | cmd/generate-site/main.go:275-277 | records without the flag give no capacity skips |
| SiteData.CountPartition | cmd/generate-site/main.go:263-289 | splitting records by a field over a duplicate-free list of its values counts every record once |
| SiteData.CountAll | cmd/generate-site/main.go:270 | counting every record counts the records |
| SiteStats.AggOfTally | cmd/generate-site/main.go:263-277 | a name has totals exactly when a record carries it, and they are the tally and the summed time of its records |
| SiteStats.AggOfByOther | cmd/generate-site/main.go:279-288 | a name's per-counterpart tallies are the tallies of the records of each pair, present exactly when the pair occurs |
| SiteStats.Aggregate | cmd/generate-site/main.go:261-289 | the aggregation loop builds exactly the map of totals over the records, in order |
| SiteStats.Average | cmd/generate-site/main.go:314-317 | the mean times the count is the total, and 0 when there is nothing to average |
| SiteStats.StatsFor | cmd/generate-site/main.go:292-328 | an entry carries its name, effective tests = tests − skips, the guarded rate, and skips and successes within the tests |
| SiteStats.Breakdowns | cmd/generate-site/main.go:293-307 | the per-counterpart loop gives one breakdown per counterpart of the name |
| SiteStats.BreakdownsAll | cmd/generate-site/main.go:293-307 | a map with the same keys and the breakdown of each tally is that map |
| SiteStats.BuildBreakdown | cmd/generate-site/main.go:295-306 | one counterpart's breakdown: its counts, effective tests and guarded rate |
| SiteStats.BuildStats | cmd/generate-site/main.go:292-328 | the loop body builds the entry of a name from its totals |
| SiteStats.ByOtherMatches | cmd/generate-site/main.go:279-288 | a counterpart has a tally in a name's totals exactly when it occurs with that name, and the tally is that pair's |
| SiteStats.MakeStatsIsStatsFor | cmd/generate-site/main.go:292-328 | the entry built from the aggregated totals is the entry computed directly from the records |
| SiteStats.ByOtherMap | cmd/generate-site/main.go:293-307 | a per-counterpart map that agrees with the records gives the breakdowns computed from the records |
| SiteStats.RateAtLeastTotal | cmd/generate-site/main.go:332-334 | "higher rate first" is a total preorder, so sorting by it is well defined |
| SiteStats.AggKeysOccur | cmd/generate-site/main.go:263-269 | a name has totals exactly when it occurs in the records |
| SiteStats.ComputeStats | cmd/generate-site/main.go:252-337 | the list is sorted by non-increasing rate, holds one entry per name that occurs and no other, and each entry is that name's statistics |
| SiteStats.StatsList | cmd/generate-site/main.go:292-329 | the loop over the aggregated names gives one entry per name, in visiting order |
| SiteStats.StatsFromAgg | cmd/generate-site/main.go:292-329 | entries built from the aggregated map are the entries computed from the records |
| SiteStats.SortedStatsProperties | cmd/generate-site/main.go:331-334 | sorting the entries keeps every entry correct, the names exactly the occurring ones, and the names distinct |
| SiteStats.NamesCovered | cmd/generate-site/main.go:291-329 | a name has an entry in the sorted list exactly when it was aggregated |
| SiteStats.DistinctNames | cmd/generate-site/main.go:291-334 | sorting entries of distinct names keeps the names distinct |
| SiteStats.Names | cmd/generate-site/main.go:320 | the names of the entries, one for one |
| SiteStats.SumTotalsCounts | cmd/generate-site/main.go:270 | the entries' test counts add up to the records counted under their names |
| SiteStats.TotalsSumToRecords | cmd/generate-site/main.go:263-289 | every record is counted under exactly one name: the test counts add up to the number of records |
| SiteStats.NamesCover | cmd/generate-site/main.go:263-269 | the entries' names are distinct and include the name of every record |
| SiteStats.SumTestsCounts | cmd/generate-site/main.go:282 | the breakdowns' test counts add up to the records of the listed pairs |
| SiteStats.BreakdownSumsToTotal | cmd/generate-site/main.go:279-288 | within one entry the counterparts' test counts add up to the entry's test count |
| SiteStats.ComputeEncoderStats | cmd/generate-site/main.go:252-337 | grouped by encoder, broken down by decoder, encode times averaged; sorted by rate, one entry per encoder, test counts summing to the number of records |
| SiteStats.ComputeDecoderStats | cmd/generate-site/main.go:339-424 | grouped by decoder, broken down by encoder, decode times averaged; sorted by rate, one entry per decoder, test counts summing to the number of records |
| SiteCombinations.CombAggOfMeaning | cmd/generate-site/main.go:437-452 | a pair key has totals exactly when a record of that pair exists, and they are the pair's tally and summed encode and decode times |
| SiteCombinations.AggregateCombinations | cmd/generate-site/main.go:435-452 | the aggregation loop builds exactly the map of pair totals over the records, in order |
| SiteCombinations.CombinationFor | cmd/generate-site/main.go:457-481 | a pair's entry has effective tests = tests − skips, the guarded rate, skips and successes within the tests, and names that give the key back when joined by '\|' |
| SiteCombinations.MakeCombinationIsFor | cmd/generate-site/main.go:457-481 | the entry built from the aggregated totals is the entry computed directly from the records |
| SiteCombinations.PairKeyHasBar | cmd/generate-site/main.go:438 | every pair key holds a '\|' |
| SiteCombinations.CombinationNames | cmd/generate-site/main.go:438-473 | the entry of a record's pair gives that record's encoder and decoder names back, as long as the encoder name has no '\|' |
| SiteCombinations.BestOfMeaning | cmd/generate-site/main.go:455-486 | the best rate is at least every rate seen and never negative; when positive the best is one of the entries, otherwise it is the zero value with empty names |
| SiteCombinations.BestOfStep | cmd/generate-site/main.go:484-486 | a later entry replaces the best only with a strictly higher rate |
| SiteCombinations.RateAtLeastTotal | cmd/generate-site/main.go:490-492 | "higher rate first" is a total preorder |
| SiteCombinations.BuildCombination | cmd/generate-site/main.go:458-481 | the loop body builds the entry of a key from its totals |
| SiteCombinations.BuildTable | cmd/generate-site/main.go:454-487 | the loop over the aggregated pairs gives one entry per key in visiting order, with the best entry tracked alongside |
| SiteCombinations.TableIsFor | cmd/generate-site/main.go:457-483 | entries built from the aggregated map are the entries computed from the records |
| SiteCombinations.ComputeCombinations | cmd/generate-site/main.go:426-502 | the table is sorted by non-increasing rate, is a permutation of the visiting order, has one correct entry per occurring pair with distinct keys; the best rate is the maximum, its names are an entry's, and empty when no rate is positive |
| SiteCombinations.KeysHaveBars | cmd/generate-site/main.go:437-457 | every aggregated key holds a '\|' and belongs to an occurring pair, and every occurring pair is aggregated |
| SiteCombinations.OccursIffAggregated | cmd/generate-site/main.go:437-452 | a key is aggregated exactly when a record has that pair |
| SiteCombinations.SortedTableProperties | cmd/generate-site/main.go:489-492 | sorting the entries keeps each entry correct, the keys exactly the occurring pairs, and the keys distinct |
| SiteCombinations.EntryKeysAreKeys | cmd/generate-site/main.go:458-473 | an entry's names joined by '\|' give back the key it was built from |
| SiteCombinations.SortedEntriesFor | cmd/generate-site/main.go:489-492 | an entry in the sorted table is the entry of its own key |
| SiteCombinations.KeysCovered | cmd/generate-site/main.go:489-492 | a key has an entry in the sorted table exactly when it was aggregated |
| SiteCombinations.DistinctKeys | cmd/generate-site/main.go:489-492 | sorting distinct entries keeps their keys distinct |
| SiteCombinations.BestInTable | cmd/generate-site/main.go:484-500 | no sorted entry has a higher rate than the best; a positive best is an entry of the table, and otherwise has empty names |
| SiteSummary.ComputeSummary | cmd/generate-site/main.go:651-693 | the records, their successes and capacity skips; effective tests and the guarded rate; the heads of the encoder and decoder lists, or ""; the best pair; the list sizes |
| SiteSummary.HeadIsBest | cmd/generate-site/main.go:670-678 | for a sorted statistics list: with no records the list is empty and the head's name is ""; with records the head's name is one that occurs (it may itself be ""); no entry has a higher rate than the head |
| SiteFailures.BucketFor | cmd/generate-site/main.go:531-555 | a value's bucket counts the failed records and all records with that value, capacity skips excluded, with failures ≤ total |
| SiteFailures.BucketsOfMeaning | cmd/generate-site/main.go:513-555 | the loop's bucket of a value is the bucket computed from the records, and a value has a bucket exactly when a counted record has it |
| SiteFailures.ConditionOf | cmd/generate-site/main.go:573-582 | an entry keeps its condition text, failures and total, and its rate is failures / total · 100 (0 for an empty bucket), between 0 and 100 |
| SiteFailures.RateAtLeastTotal | cmd/generate-site/main.go:584-586 | "higher failure rate first" is a total preorder |
| SiteFailures.LabelsInjective | cmd/generate-site/main.go:578-595 | different sizes get different "%d bytes" and "%dpx" condition texts |
| SiteFailures.ConditionsAt | cmd/generate-site/main.go:572-583 | the entries for a list of values, in that order, each the bucket of its value under its text |
| SiteFailures.ListedBounded | cmd/generate-site/main.go:572-583 | every listed entry is the bucket of some value, with failures within the total and a rate between 0 and 100 |
| SiteFailures.BuildCondition | cmd/generate-site/main.go:573-582 | the loop body builds the entry of a bucket under its text |
| SiteFailures.ConditionList | cmd/generate-site/main.go:572-583 | the loop over a bucket map gives one entry per key, each key once, in visiting order |
| SiteFailures.ConditionsFromBuckets | cmd/generate-site/main.go:572-583 | the entries built from the counted map are the entries computed from the records, and its keys are the values of counted records |
| SiteFailures.BucketList | cmd/generate-site/main.go:571-586 | the list has one entry per value of the field among the counted records, sorted by non-increasing failure rate |
| SiteFailures.ByTypeWithinFailures | cmd/generate-site/main.go:519-528 | the encode, decode and mismatch counts of counted failures add up to at most the failures: a failure with an unknown tag is counted under none |
| SiteFailures.CountsOfStep | cmd/generate-site/main.go:513-569 | one more record changes the counts by one loop step, and a capacity skip changes nothing |
| SiteFailures.CountsOfMeaning | cmd/generate-site/main.go:513-569 | the loop's counts are the kind counts, the three bucket maps and the fractional and integer buckets computed from the records |
| SiteFailures.CountsOfByType | cmd/generate-site/main.go:519-528 | the loop's kind counts are those of the counted failures |
| SiteFailures.CountsOfMaps | cmd/generate-site/main.go:531-555 | the loop's three maps are the bucket maps of data size, pixel size and content type |
| SiteFailures.CountsOfModules | cmd/generate-site/main.go:558-568 | the loop's fractional and integer counts are the buckets of the fractional flag |
| SiteFailures.CountFailures | cmd/generate-site/main.go:505-569 | the counting loop produces exactly those counts |
| SiteFailures.ComputeFailures | cmd/generate-site/main.go:504-649 | the kind counts; for each of data size, pixel size and content type one entry per occurring value, sorted by failure rate; the fractional and integer module entries |
| SiteFailures.FractionalSplit | cmd/generate-site/main.go:558-568 | the fractional and integer totals add up to the number of counted records, and likewise the failures |
| SiteFailures.CapacitySkipsIgnored | cmd/generate-site/main.go:515-517 | removing the capacity skips first changes no bucket and no kind count |
| MarkdownReport.OutcomesAddUp | pkg/report/markdown.go:122-149 | every result either passed or failed; the encode, decode and mismatch failures plus those of an unknown kind add up to all failures |
| MarkdownReport.Percent | pkg/report/markdown.go:152-155 | 0 for no results; otherwise the rate times the whole is exactly part·100, and a part within the whole gives a rate in 0..100 |
| MarkdownReport.Mean | pkg/report/markdown.go:157-162 | 0 for no values; otherwise the largest whole m with m·n not above the sum, the rounding of Duration division |
| MarkdownReport.SummaryStep | pkg/report/markdown.go:122-149 | one more result adds one to exactly the count its outcome belongs to and its times to the two sums |
| MarkdownReport.BuildSummary | pkg/report/markdown.go:112-162 | the total; the passes are the results without an error; the failures are the rest; each known-kind count is the number of results of that kind, and together they are at most the failures; the rate and the mean times follow from those counts |
| MarkdownReport.KnownKindsCoverFailures | pkg/report/markdown.go:126-148 | the three known kinds add up to all failures exactly when no result failed with an unknown kind of error |
| MarkdownReport.ReplaceAll | pkg/report/markdown.go:553-555 | same length; every occurrence of the character is replaced and every other character kept, so none is left when the two differ |
| MarkdownReport.SanitizeFilename | pkg/report/markdown.go:552-557 | the three replacements in turn act character by character: the name keeps its length, '/' and '\\' become '-', ' ' becomes '_', and all else stays |
| MarkdownReport.SanitizeFilenameIdempotent | pkg/report/markdown.go:552-557 | none of '/', '\\' and ' ' is left, so sanitizing twice is sanitizing once |
| MarkdownReport.IntLeTotal | pkg/report/markdown.go:194 | the integer order handed to the sort is a total preorder |
| MarkdownReport.SortedDistinctIncreasing | pkg/report/markdown.go:190-200 | sorted keys without repetition are strictly increasing |
| MarkdownReport.SortedKeys | pkg/report/markdown.go:190-200 | sort.Ints of the keys of a set map: strictly increasing and holding exactly the keys |
| MarkdownReport.Axis | pkg/report/markdown.go:182-200 | an axis of the matrix holds each value of its size field once, in increasing order, and nothing else |
| MarkdownReport.DecimalNoUnderscore | pkg/report/markdown.go:205 | a decimal number never contains '_', the key separator |
| MarkdownReport.CellKeyInjective | pkg/report/markdown.go:205 | two size pairs with the same "%d_%d" key are the same pair |
| MarkdownReport.LastWhere | pkg/report/markdown.go:204-207 | finds something exactly when some element meets the condition |
| MarkdownReport.LastWhereIsLast | pkg/report/markdown.go:204-207 | what is found meets the condition and no later element does |
| MarkdownReport.LookupMeaning | pkg/report/markdown.go:203-207 | a size pair has a key in the lookup exactly when some result has those sizes, and the key then holds the last such result |
| MarkdownReport.BuildLookup | pkg/report/markdown.go:203-207 | the loop leaves the lookup map of all the results |
| MarkdownReport.CellOf | pkg/report/markdown.go:228-236 | a cell is blank exactly when no result has its data size and pixel size |
| MarkdownReport.CellOfUnique | pkg/report/markdown.go:228-236 | when only one result has a size pair, its cell is a pass exactly when that result has no error |
| MarkdownReport.Build2DMatrix | pkg/report/markdown.go:180-243 | both axes strictly increasing and holding exactly the sizes that occur; one row per data size and one cell per pixel size, each cell that of the last result with its sizes |
| MarkdownReport.BuildCells | pkg/report/markdown.go:225-239 | the loop over the data sizes writes one row per data size, each read from the lookup |
| MarkdownReport.CellsAlong | pkg/report/markdown.go:227-237 | one cell per size |
| MarkdownReport.CellsAlongStep | pkg/report/markdown.go:227-237 | one more size adds its cell at the end |
| MarkdownReport.CellsAlongAt | pkg/report/markdown.go:227-237 | cell j is the cell of size j |
| MarkdownReport.RowIn | pkg/report/markdown.go:227-237 | a row of the table has one cell per pixel size |
| MarkdownReport.RowInStep | pkg/report/markdown.go:227-237 | one more pixel size adds the cell of its key at the end of the row |
| MarkdownReport.RowInMeaning | pkg/report/markdown.go:227-237 | cell j of a row is the cell the lookup gives for that data size and pixel size j |
| MarkdownReport.CellsFromLookup | pkg/report/markdown.go:203-239 | rows read through the lookup map are the matrix of the results: every cell is that of the last result with its sizes |
| MarkdownReport.CellFromLookup | pkg/report/markdown.go:228-236 | reading a cell through the lookup map gives the same cell as the last result with those sizes |
| MarkdownReport.RowFromLookup | pkg/report/markdown.go:227-237 | a row read through the lookup map has one cell per pixel size, each that of the last result with its sizes |
| MarkdownReport.BuildRow | pkg/report/markdown.go:227-237 | the inner loop writes the row of its data size |
| MarkdownReport.ReadCell | pkg/report/markdown.go:229-236 | nil gives a blank cell, a result without an error a pass, any other a failure |
| MarkdownReport.SizeLeTotal | pkg/report/markdown.go:294-299 | the order by data size, then pixel size, is a total preorder |
| MarkdownReport.FilterStep | pkg/report/markdown.go:254-276 | one more result is appended to a failure list exactly when it is of that list's kind |
| MarkdownReport.PartitionFailures | pkg/report/markdown.go:254-276 | each failure list holds exactly the results failed with its kind of error, in the order of the results |
| MarkdownReport.PixelCountsMeaning | pkg/report/markdown.go:347-354 | the total of a pixel size is the number of results at that size, its failures the number of those that failed, and a size has an entry exactly when its count is positive |
| MarkdownReport.PixelFailuresWithinTotals | pkg/report/markdown.go:347-354 | no pixel size has more failures than results |
| MarkdownReport.CountPixels | pkg/report/markdown.go:347-354 | the loop leaves the per-pixel totals and failures of all the results |
| MarkdownReport.PatternOf | pkg/report/markdown.go:363-369 | a pattern line is about its own pixel size, has no more failures than results, and has a rate in 0..100 |
| MarkdownReport.PixelsOf | pkg/report/markdown.go:363-370 | one pixel size per pattern line or module row, in their order |
| MarkdownReport.PixelsOfSnoc | pkg/report/markdown.go:363-370 | one more line or row adds its pixel size at the end |
| MarkdownReport.PatternsOverLines | pkg/report/markdown.go:363-370 | every line is the line of its pixel size, and that size has at least one failure |
| MarkdownReport.PatternsOverPixels | pkg/report/markdown.go:363-370 | the lines are for the pixel sizes with a failure, in the given order |
| MarkdownReport.FilterKeeps | pkg/report/markdown.go:363-370 | a pixel size that passes the test is listed |
| MarkdownReport.FilterIncreasing | pkg/report/markdown.go:361-370 | skipping pixel sizes keeps the list increasing |
| MarkdownReport.PixelCountsAll | pkg/report/markdown.go:347-354 | after the loop every pixel size's two counts are its numbers of results and failures |
| MarkdownReport.BuildPatterns | pkg/report/markdown.go:347-370 | one line per pixel size with at least one failure, and for no other, in strictly increasing order, each with that size's failures, results and rate |
| MarkdownReport.ListPatterns | pkg/report/markdown.go:363-370 | the loop over the sorted pixel sizes writes the lines of those with failures |
| MarkdownReport.BuildFailureAnalysis | pkg/report/markdown.go:246-378 | each failure list is sorted by data size, then pixel size, and holds exactly the results of its kind; the total is the sum of the three; with no failures there are no pattern lines and no non-monotonic flag, otherwise the pattern lines are those of BuildPatterns and the flag is the reference definition under the given order of each group |
| MarkdownReport.GroupsMeaning | pkg/report/markdown.go:523-526 | a data size has a group exactly when some result has it, and its group holds those results in order |
| MarkdownReport.GroupByDataSize | pkg/report/markdown.go:523-526 | the loop leaves the grouping of all the results |
| MarkdownReport.PixelLeTotal | pkg/report/markdown.go:531-533 | comparing pixel sizes is a total preorder, so sorting by it is well defined |
| MarkdownReport.StableSortPixelSorts | pkg/report/markdown.go:531-533 | the stable sort by pixel size is one of the orders sort.Slice may produce: sorted by pixel size and a permutation of each group |
| MarkdownReport.TiesDecideDip | pkg/report/markdown.go:531-544 | with a passing result below a failing and a passing one of equal pixel size, both orders of the tie are sorted permutations of each other, and only one has a dip |
| MarkdownReport.ScanForDip | pkg/report/markdown.go:536-544 | true exactly when some failure in the sorted group sits between two results without an error |
| MarkdownReport.GroupsDip | pkg/report/markdown.go:521-548 | for any arrangement of the groups, scanning the groups finds a dip exactly when the reference definition holds under that arrangement |
| MarkdownReport.ScanGroups | pkg/report/markdown.go:529-547 | true exactly when some group, put in order by the given arrangement, has a dip, whatever order the map gives |
| MarkdownReport.HasNonMonotonicFailures | pkg/report/markdown.go:521-548 | for whatever order the sort gives each group, true exactly when some data size with results has, in that order, a failure between two passes |
| MarkdownReport.NoErrorsMonotonic | pkg/report/markdown.go:521-548 | results without errors are never non-monotonic, for any order sort.Slice may give the groups |
| MarkdownReport.SmallGroupsMonotonic | pkg/report/markdown.go:536 | data sizes with fewer than three results can never show a dip, for any order sort.Slice may give the groups |
| MarkdownReport.InfoOfMeaning | pkg/report/markdown.go:410-425 | a pixel size has an entry exactly when some result with a detected version has it; the two flags say whether one of those failed or passed; the module size and fractional flag are those of the last such result |
| MarkdownReport.StatusMeaning | pkg/report/markdown.go:438-459 | Mixed exactly when the probed results at that size both failed and passed, Problematic when they only failed, Working when they only passed; a listed size always has a status |
| MarkdownReport.CollectPixelInfo | pkg/report/markdown.go:410-425 | the loop leaves the per-pixel information of all the results |
| MarkdownReport.RowsOver | pkg/report/markdown.go:438-459 | one row per pixel size |
| MarkdownReport.RowsOverMeaning | pkg/report/markdown.go:438-459 | row k is that of pixel size k |
| MarkdownReport.NoteOf | pkg/report/markdown.go:463-470 | no note when some sizes are listed and none is fractional; the count of the total when some but not all are; the all-fractional note when every size is |
| MarkdownReport.ListRows | pkg/report/markdown.go:438-459 | the loop writes the row of each sorted pixel size and counts the fractional rows |
| MarkdownReport.BuildModuleInfo | pkg/report/markdown.go:381-473 | available exactly when some result has a detected version, and empty otherwise; then one row per pixel size with such a result and no other, strictly increasing, each from the collected information, with the fractional count and the note that follows from it |
| MarkdownReport.ModuleTable | pkg/report/markdown.go:410-470 | the rows are the probed pixel sizes in increasing order, each from the collected information, with the number of fractional rows and the note |
| MarkdownReport.ProbedPixels | pkg/report/markdown.go:410-432 | the collected information has exactly the pixel sizes of results with a detected version |

## Left out

- Image-based version detection is not modelled, because `DetectQRVersion` is unimplemented and always reports an error. The runner's module fields therefore keep their sentinel values.
- Encoder and decoder adapters, their registries and build-tag files wrap foreign QR and image libraries. Each adapter is modelled only as a value holding a name and its encode, capacity and decode functions.
- `sort.Slice` is not stable, but the model sorts the statistics lists, the pair table and the failure lists of both reports with one fixed stable sort. Elements that compare equal may appear in another order in the real program. The contracts on those lists say only what holds for any order: sorted, and a permutation. The best pair is chosen as the source chooses it, from the map's arbitrary order.
- The non-monotonic check is different, because its answer depends on how ties are ordered (`MarkdownReport.TiesDecideDip`). There the sort is a parameter `arrange`, and `HasNonMonotonicFailures` is exact for whatever order it gives each group. `MarkdownReport.PixelSorts` says what any order sort.Slice produces must satisfy, and `MarkdownReport.StableSortPixelSorts` shows the stable sort is one such order. `NoErrorsMonotonic` and `SmallGroupsMonotonic` hold for every such order.
- `Common.MapKeys`: the order of the keys is left arbitrary, as Go's map iteration is. Only the set of keys and their uniqueness are stated.
- Float arithmetic is not modelled: rates and module widths are computed as exact reals, so rounding in `float64` is not captured.
- Integers are not modelled as 64-bit. The model's integers are unbounded, so `formatInt` on the smallest 64-bit value and overflow in `strconv.Atoi` are not modelled.
- `Config.TrimSpace` trims ASCII whitespace only, not the other Unicode spaces `strings.TrimSpace` also removes.
- Text rendering is left out:
  - `formatDuration`, the `%.1f` percentages and the Markdown tables as text;
  - `generateReport`, and the Markdown `Generate`, which groups the results by encoder and decoder pair and writes one file per pair.
  
  The numbers of the summary, matrix, failure and module size sections are modelled.
- The timing, data type and decoder limitation sections of the Markdown report are left out entirely, numbers included: `buildTimingAnalysis` with its per-data-size timing averages, `buildDataTypeAnalysis` with its per-content-type counts, and `buildDecoderLimitations` with its counts of failures by kind.
- File I/O is left out: `writeJSON`, `loadResultsFromDir`, `os.MkdirAll`, `WriteFile`, `ReadDir` and the `main` functions. The encoder and decoder files are modelled as the grouped records they would hold.
- `printProgress`, `RegisterFlags` and `cmd/qr-tester` are CLI glue and are left out.
- The runner never uses `Parallel`, `MaxWorkers` or `Timeout` and is single-threaded, so concurrency is not modelled.
- Timestamps and `time.Now` are left out. Durations come from a clock parameter, one timing per triple.
- Error messages are not modelled as the exact `Error()` strings. Those texts are given as a parameter, because the error types' `Error()` methods are not part of this model.
- `internal/matrix/result.go` has no `ContentType` or `IsCapacityExceeded` field, but `runner.go` sets both. The model follows `runner.go` and has both fields.
- `TestGeneratePixelSizeMatrix` (`internal/testdata/generator_test.go:8-16`) expects 48 binary cases, 6 data sizes by 8 pixel sizes. `GeneratePixelSizeMatrix` (`internal/testdata/generator.go:93-144`) builds 96 alphanumeric and UTF-8 cases: 4 data sizes, 6 pixel sizes, 2 content types and 2 levels. The model follows the code.
- `TestGenerateEdgeCases` (`internal/testdata/generator_test.go:75` and `:84`) looks up the cases "empty" and "single-byte". `GenerateEdgeCases` (`internal/testdata/generator.go:296` and `:304`) names them "empty-ecM" and "single-byte-ecM", so those lookups miss as written. The model follows the code; `Corpus.GenerateEdgeCases` states the eight names.
- `markdown.go` and `json.go` each declare a `sanitizeFilename` in the same package. They are modelled as `MarkdownReport.SanitizeFilename` and `JsonReport.SanitizeFilename`, in their own modules.
- Two behaviours of the source are stated as lemmas, not corrected:
  - the JSON record has no capacity flag, so the site generator never sees capacity skips (`SiteData.CapacityFlagLost`);
  - pair keys built by joining names with '|' can collide (`SiteData.PairKeyCollision`).
