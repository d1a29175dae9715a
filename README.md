# ATON format core in Dafny

ATON is a tabular text format for JSON-like data. This project models its core and proves properties of that model.

A document is a dict of tables. Each table is a list of dict records. The encoder writes a document as:
- an optional `@dict[...]` line of string references;
- per table, a `@schema[...]` line and an optional `@defaults[...]` line;
- per table, a `name(n):` header followed by one indented row per record.

Columns equal to their default are left out of a row. The decoder reads such text back with a line scanner. It has a quote- and bracket-aware comma splitter and a literal grammar, and it maps row values to schema columns by position.

The project models these parts of the system:
- the encoder and the decoder (`Encoder`, `Decoder`, `Splitting`, `Literals`, `Text`, `Values`);
- dictionary compression and the four-mode compression engine (`Compression`, `CompressionEngine`);
- the SQL-like query language:
  - its tokenizer (`QueryTokenizer`);
  - its recursive-descent parser, a class with a token list and a cursor (`QueryParsing`);
  - the evaluation of its conditions (`QueryAst`);
  - the filter, project, stable sort, offset and limit pipeline (`QueryEngine`);
- `encode_with_query` (`QueryEncoding`);
- the chunked stream encoder (`Streaming`).

The Python code loops over lists, mutates instance state, and advances a parse position. The model keeps that form: classes with fields and methods, methods with `while` loops and their invariants. Each method is proved equal to a function of its inputs and old state, and the properties are proved about those functions. They live in the `*Properties` modules and in the round-trip modules:
- `RoundTrip` and `DocumentRoundTrip`, for the uncompressed layout;
- `DictionaryRoundTrip`, for the `@dict` line;
- `DecoderReferences`, for a decoder instance that holds a dictionary;
- `CompressedRoundTrip`, for the layout that BALANCED, ULTRA and ADAPTIVE write with a dictionary.

Python exceptions are `Failure` results carrying a closed `Error` datatype. Python `==` and `<` across bool, int and float are modelled as Python evaluates them. Floats are exact decimals, rendered as `str()` renders them. Savings ratios are exact fractions.

Several things the code really does are stated as lemmas about the code as written, not corrected:
- Default-valued columns are dropped from the middle of a row, but the decoder maps values by position (`RoundTrip.MiddleElisionShifts`).
- An all-default record becomes an empty row, which the decoder skips as blank (`DecoderProperties.EmptyRowLost`).
- `_parse_dict` strips `"` from both ends of a dictionary value (`DecoderProperties.DictValueQuirk`).
- The float `1e-05` is written without a point and reads back as a string (`Literals.SmallFloatReadsAsString`).
- `estimate_savings` counts strings that `compress` excludes (`CompressionProperties.EstimateIgnoresHashExclusion`).
- `LIMIT 0` is ignored (`QueryEngineProperties.LimitZeroIgnored`).
- Tokens after the last clause are never looked at (`QueryParsingProperties.OffsetEndsQuery`).
- The stream encoder raises `TypeError` on list or dict values that the core encoder skips (`StreamingProperties.StreamDefaultsVersusCore`).

## Model

| member | source | states |
|---|---|---|
| Values.Keys | src/aton_format/core/encoder.py:178 | the keys of a dict, one per entry, in insertion order |
| Values.Find | src/aton_format/core/types.py:55 | the position of a key is where it first occurs, and None exactly when it is absent |
| Values.Get | src/aton_format/core/types.py:55-58 | d.get(k) is present exactly when k is a key |
| Values.Put | src/aton_format/core/decoder.py:106 | after d[k] = v, k maps to v, every other key keeps its value, an existing key keeps its position and a new key goes last |
| Values.Distinct | src/aton_format/compression/algorithms.py:41 | the strings in order of first occurrence: the same set of strings, each once |
| Values.AsMap | src/aton_format/core/types.py:55-58 | the dict as a finite map: the same keys, each with the value get gives |
| Values.NumSameExponent | src/aton_format/core/types.py:60-71 | numbers on one exponent compare and are equal as their mantissas |
| Values.PyEqSymmetric | src/aton_format/core/types.py:60-63 | Python == is symmetric, numbers compared by value across bool, int and float |
| Values.FloatEqIdentity | src/aton_format/core/types.py:60-61 | two normalized decimals with the same value are the same pair |
| Values.Compare | src/aton_format/core/types.py:64-71 | an ordering comparison raises TypeError when either side is None or a dict, and is defined on two numbers and on two strings |
| Values.CompareMirror | src/aton_format/core/types.py:64-71 | a < b is b > a, and a <= b is b >= a, including where both raise |
| Values.CompareComplement | src/aton_format/core/types.py:64-71 | a <= b is not (a > b), and a >= b is not (a < b), wherever they are defined |
| Values.LessExcludesGreater | src/aton_format/core/types.py:64-67 | a < b and a > b never both hold |
| Values.CompareDefined | src/aton_format/core/types.py:64-71 | whether a comparison raises does not depend on the operator |
| Values.LessAsymmetric | src/aton_format/query/engine.py:43-45 | a < b makes b < a false |
| Values.TypeTag | src/aton_format/core/encoder.py:209-226 | one of the seven type names; "bool" exactly for booleans (tested before int) and "str" exactly for strings |
| Values.ReprQuote | src/aton_format/core/encoder.py:171 | repr() of a string is quoted with ' or " |
| Values.ReprCharsRoundTrip | src/aton_format/core/encoder.py:171 | what repr() writes between the quotes reads back as the string |
| Values.StrReprRoundTrip | src/aton_format/core/encoder.py:171 | repr() of a string reads back as the string |
| Values.PlainReprChars | src/aton_format/core/encoder.py:171 | a string of plain characters is written by repr() as itself between the quotes |
| Values.PlainRepr | src/aton_format/core/encoder.py:171 | a string with no quote, backslash or escaped character is shown by repr() between single quotes |
| Compression.SavingsRatio | src/aton_format/compression/algorithms.py:76 | the estimate is saved/total as an exact ratio when total > 0, and 0 otherwise |
| Compression.Ref | src/aton_format/compression/algorithms.py:49 | the reference token is '#' followed by the decimal counter, and starts with '#' |
| Compression.RefInjective | src/aton_format/compression/algorithms.py:49 | different counters give different reference tokens |
| Compression.Qualifying | src/aton_format/compression/algorithms.py:45-48 | the counted strings that get a reference, in counting order, are exactly those at least min_length long, counted at least min_occurrences times and not starting with '#' |
| Compression.Assign | src/aton_format/compression/algorithms.py:44-51 | the k-th qualifying string is entered under the token of counter next + k, and the dictionary has one entry per qualifying string |
| Compression.DictionaryCompression.constructor | src/aton_format/compression/algorithms.py:29-33 | the thresholds are stored, the dictionary is empty and the counter is 0 |
| Compression.DictionaryCompression.ExtractStrings | src/aton_format/compression/algorithms.py:78-92 | appends the string leaves of obj, in traversal order (dict values in order, list items in order), to the given list |
| Compression.DictionaryCompression.Compress | src/aton_format/compression/algorithms.py:35-60 | the new dictionary is built from the string counts of the data numbering from the old counter, the counter advances by its size, the result replaces strings through the reversed dictionary, and the metadata is the one entry "dictionary" |
| Compression.DictionaryCompression.BuildDictionary | src/aton_format/compression/algorithms.py:44-51 | the loop leaves the dictionary of the qualifying strings numbered from the old counter, and advances the counter by one per entry |
| Compression.DictionaryCompression.EstimateSavings | src/aton_format/compression/algorithms.py:62-76 | the estimate is the ratio of the saved-characters sum to the total-characters sum of the string counts, and changes nothing |
| Compression.DictionaryCompression.SumTotalChars | src/aton_format/compression/algorithms.py:67 | the loop computes the sum of len(s) * count over the counts |
| Compression.DictionaryCompression.SumSavedChars | src/aton_format/compression/algorithms.py:70-74 | the loop computes the sum of (len(s) - 3) * (count - 1) over the strings meeting both thresholds, without the '#' test |
| Compression.FreshRef | src/aton_format/compression/algorithms.py:49-51 | the next reference token is not yet a key of a dictionary numbered from an earlier start |
| CompressionProperties.CountGetOne | src/aton_format/compression/algorithms.py:41 | the count Counter(strings) gives one string is its number of occurrences |
| CompressionProperties.CountGet | src/aton_format/compression/algorithms.py:41 | Counter(strings) maps exactly the strings of the list, each to its number of occurrences |
| CompressionProperties.CountKeys | src/aton_format/compression/algorithms.py:41 | the counts list the strings in order of first occurrence |
| CompressionProperties.CountPositive | src/aton_format/compression/algorithms.py:41 | every count is at least one |
| CompressionProperties.QualifyingMeaning | src/aton_format/compression/algorithms.py:45-48 | a counted string qualifies exactly when its count and length meet the thresholds and it does not start with '#' |
| CompressionProperties.QualifyingDistinct | src/aton_format/compression/algorithms.py:45-51 | no string is referenced twice |
| CompressionProperties.DictionaryKeysDistinct | src/aton_format/compression/algorithms.py:49-50 | the reference tokens of one compress call are distinct |
| CompressionProperties.DictionaryValuesDistinct | src/aton_format/compression/algorithms.py:54 | the dictionary's strings are distinct, so the reverse map loses nothing |
| CompressionProperties.DictionaryContents | src/aton_format/compression/algorithms.py:38-51 | a string is in the dictionary exactly when it is a string leaf of the data, at least min_length long, occurring at least min_occurrences times and not starting with '#' |
| CompressionProperties.DistinctOrdered | src/aton_format/compression/algorithms.py:41 | the distinct strings come in order of first occurrence |
| CompressionProperties.QualifyingOrdered | src/aton_format/compression/algorithms.py:45 | the qualifying strings keep the order of the counts |
| CompressionProperties.FirstSeenOrder | src/aton_format/compression/algorithms.py:45-51 | a lower reference number goes to a string seen earlier in the traversal |
| CompressionProperties.ReverseInverts | src/aton_format/compression/algorithms.py:54 | with distinct values, the reverse map sends each string back to its token |
| CompressionProperties.ReplaceShape | src/aton_format/compression/algorithms.py:94-103 | the rewrite keeps the keys, the nesting and every non-string leaf |
| CompressionProperties.ReplaceStrings | src/aton_format/compression/algorithms.py:94-103 | the string leaves of the rewrite are those of the input, each substituted through the map, in traversal order |
| CompressionProperties.ReplaceUndone | src/aton_format/compression/algorithms.py:94-103 | rewriting through one map and then another gives back the input when the second undoes the first on every string leaf |
| CompressionProperties.QualifyingLeafReplaced | src/aton_format/compression/algorithms.py:54-57 | a qualifying string leaf becomes its reference token |
| CompressionProperties.OtherLeafKept | src/aton_format/compression/algorithms.py:96-97 | every other string leaf is kept |
| CompressionProperties.CompressRoundTrip | src/aton_format/compression/algorithms.py:35-60 | mapping every reference back through the dictionary recovers the data, provided no string leaf is itself one of the dictionary's tokens |
| CompressionProperties.RoundTripWithoutHashLeaves | src/aton_format/compression/algorithms.py:35-60 | in particular the round trip holds when no string leaf starts with '#' |
| CompressionProperties.TotalCharsIncrement | src/aton_format/compression/algorithms.py:67 | counting one more occurrence of a string adds its length to total_chars |
| CompressionProperties.TotalIsLengthSum | src/aton_format/compression/algorithms.py:64-67 | total_chars is the total length of all string leaves |
| CompressionProperties.SavedWithinTotal | src/aton_format/compression/algorithms.py:70-74 | with min_length >= 3 the saved characters lie between 0 and total_chars |
| CompressionProperties.EstimateBounded | src/aton_format/compression/algorithms.py:62-76 | with min_length >= 3 the estimate lies between 0 and 1 |
| CompressionProperties.EstimateZeroWithoutText | src/aton_format/compression/algorithms.py:76 | the estimate is 0 when the data holds no non-empty string |
| CompressionProperties.EstimateIgnoresHashExclusion | src/aton_format/compression/algorithms.py:48-72 | the estimate counts a string starting with '#' that compress never replaces |
| CompressionEngine.Best | src/aton_format/compression/engine.py:79 | the chosen index holds a maximal estimate, and every earlier estimate is strictly smaller, as max(..., key=...) picks the first maximum |
| CompressionEngine.Engine.constructor | src/aton_format/compression/engine.py:13-19 | the mode is stored and the dictionary algorithm starts with min_length 5, min_occurrences 3, an empty dictionary and counter 0 |
| CompressionEngine.Engine.Compress | src/aton_format/compression/engine.py:21-37 | the result and the new dictionary state are those of the mode's strategy applied to the data and the old state |
| CompressionEngine.Engine.ApplyAlgorithm | src/aton_format/compression/algorithms.py:35-60 | one algorithm's compress: the dictionary algorithm as above, the delta and pattern algorithms return the data with their metadata |
| CompressionEngine.Engine.CompressFast | src/aton_format/compression/engine.py:39-42 | the dictionary algorithm alone |
| CompressionEngine.Engine.CompressBalanced | src/aton_format/compression/engine.py:44-53 | the dictionary algorithm, its metadata merged into an empty dict |
| CompressionEngine.Engine.CompressUltra | src/aton_format/compression/engine.py:55-64 | the three algorithms in order, each on the previous output, their metadata merged in order |
| CompressionEngine.Engine.CompressAdaptive | src/aton_format/compression/engine.py:66-80 | FAST under 1000 characters, BALANCED under 10000, otherwise the algorithm of the first maximal estimate |
| CompressionEngineProperties.UpdateGet | src/aton_format/compression/engine.py:52 | after d.update(other) a key of other has other's value, and every other key keeps d's |
| CompressionEngineProperties.MergeDictionaryMeta | src/aton_format/compression/engine.py:50-53 | merging the dictionary algorithm's metadata into an empty dict gives the one entry "dictionary" |
| CompressionEngineProperties.FastIsBalanced | src/aton_format/compression/engine.py:39-53 | FAST and BALANCED give the same data, metadata and state |
| CompressionEngineProperties.ChainStubs | src/aton_format/compression/algorithms.py:108-172 | the delta and pattern stages leave the data and the dictionary state alone and add their metadata |
| CompressionEngineProperties.UltraForm | src/aton_format/compression/engine.py:55-64 | ULTRA is the dictionary step followed by the entries "delta_fields" and "patterns" |
| CompressionEngineProperties.UltraExtendsBalanced | src/aton_format/compression/engine.py:44-64 | ULTRA produces BALANCED's data and state; its metadata is BALANCED's followed by empty delta fields and empty patterns |
| CompressionEngineProperties.AdaptiveThresholds | src/aton_format/compression/engine.py:73-76 | ADAPTIVE is FAST under 1000 characters and BALANCED under 10000 |
| CompressionEngineProperties.AdaptiveLargeDictionary | src/aton_format/compression/engine.py:77-80 | from 10000 characters on, the dictionary algorithm is applied when its estimate is at least both others |
| CompressionEngineProperties.AdaptiveLargeDelta | src/aton_format/compression/engine.py:77-80 | the delta algorithm (data and state unchanged) is applied when it beats the dictionary and the pattern algorithm does not beat it |
| CompressionEngineProperties.AdaptiveLargePattern | src/aton_format/compression/engine.py:77-80 | the pattern algorithm is applied when both others estimate below its 0 |
| CompressionEngineProperties.AdaptiveChoice | src/aton_format/compression/engine.py:79 | which of the three the large-document branch picks, by the first maximal estimate |
| CompressionEngineProperties.AdaptiveNeverPattern | src/aton_format/compression/engine.py:79 | with min_length >= 3 the dictionary estimate is never negative, so ADAPTIVE never picks the pattern algorithm |
| CompressionEngineProperties.RebuiltNumbered | src/aton_format/compression/algorithms.py:44-51 | the dictionary algorithm numbers its entries from the old counter up |
| CompressionEngineProperties.RunState | src/aton_format/compression/engine.py:21-80 | a call either leaves the dictionary state alone or rebuilds the dictionary from the current counter; FAST, BALANCED and ULTRA always rebuild |
| CompressionEngineProperties.AdaptiveLargeState | src/aton_format/compression/engine.py:77-80 | from 10000 characters on one algorithm runs, so the state is rebuilt or left alone |
| CompressionEngineProperties.ApplyState | src/aton_format/compression/algorithms.py:108-172 | only the dictionary algorithm changes the dictionary state |
| CompressionEngineProperties.RunKeepsNumbering | src/aton_format/compression/algorithms.py:33-51 | every call keeps the dictionary numbered just below the counter, and the counter never goes down |
| CompressionEngineProperties.NumberedDisjoint | src/aton_format/compression/algorithms.py:49-51 | dictionaries numbered over disjoint ranges share no token |
| CompressionEngineProperties.ReferencesNeverReused | src/aton_format/compression/algorithms.py:33-51 | two calls that both run the dictionary algorithm never hand out the same reference token, since the counter is never reset |
| CompressionEngineProperties.FreshEngineNumbered | src/aton_format/compression/engine.py:13-19 | a new engine's dictionary state is numbered |
| Decoder.Content | src/aton_format/core/decoder.py:67 | a metadata line's content fails with ValueError exactly when it lacks '[' or ']' |
| Decoder.KeyPart | src/aton_format/core/decoder.py:71 | the key of item.split(':', 1) holds no ':' |
| Decoder.Substitute | src/aton_format/core/decoder.py:92-105 | a value changes only when it is a string starting with '#' that the dictionary holds, and then it becomes that entry |
| Decoder.Columns | src/aton_format/core/decoder.py:101-102 | the columns paired with values are as many as the shorter of schema and values |
| Decoder.RowValues | src/aton_format/core/decoder.py:103 | one parsed value per field |
| Decoder.NextRowAt | src/aton_format/core/decoder.py:47-57 | one round of the inner while loop never moves the cursor back or past the end |
| Decoder.RowsFrom | src/aton_format/core/decoder.py:46-57 | count rounds of the range loop never move the cursor back or past the end |
| Decoder.RecordsOf | src/aton_format/core/decoder.py:50-51 | one record per data line read |
| Decoder.StepAt | src/aton_format/core/decoder.py:24-60 | a successful round of the outer loop moves the cursor forward, and only an @dict line changes the dictionary |
| Decoder.Lines | src/aton_format/core/decoder.py:17 | the lines are the pieces of split('\n'), each right-stripped |
| Decoder.ATONDecoder.constructor | src/aton_format/core/decoder.py:10-12 | the validate flag is stored and the dictionary is empty |
| Decoder.ATONDecoder.Decode | src/aton_format/core/decoder.py:14-64 | the result and the new dictionary are those of the decoding scan over the text's lines from the old dictionary |
| Decoder.ATONDecoder.ScanLine | src/aton_format/core/decoder.py:24-60 | one round of the outer while loop at line i, with its error |
| Decoder.ATONDecoder.ReadRows | src/aton_format/core/decoder.py:45-57 | the range loop after a header reads the data lines the rounds reach and parses each into a record, in order |
| Decoder.ATONDecoder.ScanRows | src/aton_format/core/decoder.py:46-57 | where the range loop leaves the cursor and which data lines it reads |
| Decoder.ATONDecoder.NextRow | src/aton_format/core/decoder.py:47-57 | one round of the inner while loop: skipped blank and '@' lines, then a data line read or a header left in place |
| Decoder.ATONDecoder.ParseRecords | src/aton_format/core/decoder.py:50-51 | _parse_record on each data line, in order |
| Decoder.ATONDecoder.ParseDict | src/aton_format/core/decoder.py:66-74 | the dictionary of the key:value items of the content, quotes stripped and escapes undone, or ValueError |
| Decoder.ATONDecoder.ParseSchema | src/aton_format/core/decoder.py:76-83 | the name and type of each name:type item, stripped, or ValueError |
| Decoder.ATONDecoder.ParseDefaults | src/aton_format/core/decoder.py:85-95 | the parsed value of each key:value item with references resolved, or ValueError |
| Decoder.ATONDecoder.ParseRecord | src/aton_format/core/decoder.py:97-107 | the defaults of the schema's columns, then each column that has a value set to it |
| Decoder.ATONDecoder.DefaultEntries | src/aton_format/core/decoder.py:99 | the record's entries for the schema columns that have a default |
| Decoder.ATONDecoder.ParseFields | src/aton_format/core/decoder.py:103-105 | the value of every field of the row, dictionary references resolved |
| Decoder.AssignValues | src/aton_format/core/decoder.py:101-106 | the enumerate loop writes each column that has a value, in order; rounds past the last value do nothing |
| DecoderProperties.ContentBetween | src/aton_format/core/decoder.py:67 | the content runs from after the first '[' to the last ']', brackets inside included |
| DecoderProperties.ContentAt | src/aton_format/core/decoder.py:67 | the content is the slice between the two bracket positions |
| DecoderProperties.LastIndexAt | src/aton_format/core/decoder.py:67 | rindex finds the position after which the character no longer occurs |
| DecoderProperties.KeyValueParts | src/aton_format/core/decoder.py:71-90 | key:value splits at its first ':' into the key and the rest |
| DecoderProperties.DictValueQuote | src/aton_format/core/decoder.py:72 | a dictionary value written quoted and escaped reads back as the string, unless the string ends with '"' |
| DecoderProperties.StripQuotes | src/aton_format/core/decoder.py:72 | strip('"') of the quoted text is the escaped text when it neither starts nor ends with '"' |
| DecoderProperties.DictValueQuirk | src/aton_format/core/decoder.py:72 | strip('"') also eats the escaped quote at the end of a value, so a dictionary string ending with '"' reads back with a backslash in its place |
| DecoderProperties.UnescapeThen | src/aton_format/core/decoder.py:72-114 | replace('\\"', '"') of an escaped string followed by text that does not start with '"' undoes the two parts separately |
| DecoderProperties.SplitFirst | src/aton_format/core/decoder.py:40 | split('(')[0] of a + '(' + b is a when a holds no '(' |
| DecoderProperties.HeaderRoundTrip | src/aton_format/core/decoder.py:40-41 | the header name(n): the encoder writes reads back as that name and count |
| DecoderProperties.RowValueAt | src/aton_format/core/decoder.py:103-105 | value i of a row is field i, stripped, parsed and looked up in the dictionary |
| DecoderProperties.PutAllOther | src/aton_format/core/decoder.py:106 | writing the columns leaves a key none of them names as it was |
| DecoderProperties.PutAllHit | src/aton_format/core/decoder.py:106 | with distinct names every column written is in the record with its value |
| DecoderProperties.DefaultsOfOther | src/aton_format/core/decoder.py:99 | the default entries leave a key no later column names as it was |
| DecoderProperties.DefaultsOfHit | src/aton_format/core/decoder.py:99 | a column that has a default gets it |
| DecoderProperties.DefaultsOfNoDefault | src/aton_format/core/decoder.py:99 | a key without a default is never written |
| DecoderProperties.ColumnsDistinct | src/aton_format/core/decoder.py:101 | the paired columns have the schema's distinct names as keys |
| DecoderProperties.RecordValue | src/aton_format/core/decoder.py:97-107 | column i of a row that reaches it holds value i |
| DecoderProperties.RecordDefault | src/aton_format/core/decoder.py:97-107 | a column past the row's last value takes its default, or is absent when it has none |
| DecoderProperties.RecordOnlySchema | src/aton_format/core/decoder.py:97-107 | a record has no key outside the schema |
| DecoderProperties.ReferenceResolved | src/aton_format/core/decoder.py:104-115 | a bare '#' token is replaced by its entry when the dictionary has it, and kept as a string otherwise |
| DecoderProperties.NextRowStep | src/aton_format/core/decoder.py:47-57 | one round of the inner loop, line by line: a data line is read, a blank or '@' line skipped, anything else stops |
| DecoderProperties.NextRowRead | src/aton_format/core/decoder.py:47-53 | a round that reads a row steps over skipped lines and reads the next data line, moving past it |
| DecoderProperties.NextRowStop | src/aton_format/core/decoder.py:54-57 | a round that reads no row steps over skipped lines up to a header or the end of the text |
| DecoderProperties.RowsOneRound | src/aton_format/core/decoder.py:46-57 | the row one round reads, if any, is a data line |
| DecoderProperties.RowsRead | src/aton_format/core/decoder.py:46-57 | the rounds after a header read at most count rows, keep the rows before, and add only data lines |
| DecoderProperties.RowsStopAtHeader | src/aton_format/core/decoder.py:49-57 | a header ends the rows of the table before it: no round moves past it |
| DecoderProperties.RowsDataStep | src/aton_format/core/decoder.py:48-53 | a round on a data line reads that line |
| DecoderProperties.RowsConsecutive | src/aton_format/core/decoder.py:46-57 | n data lines in a row are the next n rows of the table, in order and stripped |
| DecoderProperties.StepKeepsResult | src/aton_format/core/decoder.py:26-37 | a line other than a header leaves the tables as they are |
| DecoderProperties.NoHeaderKeepsResult | src/aton_format/core/decoder.py:23-60 | without a header from line i on, the scan adds no table |
| DecoderProperties.NoDictKeepsDictionary | src/aton_format/core/decoder.py:30-31 | without an @dict line from line i on, the instance keeps its dictionary |
| DecoderProperties.NoHeaderNoTables | src/aton_format/core/decoder.py:14-64 | a text without a table header decodes to {} or fails |
| DecoderProperties.DictionaryPersists | src/aton_format/core/decoder.py:12-31 | a text without an @dict line leaves the dictionary of an earlier call in place for the next one |
| DecoderProperties.DecodeEmptyText | src/aton_format/core/decoder.py:14-64 | the empty text decodes to {} |
| DecoderProperties.NoMetadata | src/aton_format/core/decoder.py:30-36 | a line starting with @dict, @schema or @defaults starts with '@' |
| DecoderProperties.HeaderStep | src/aton_format/core/decoder.py:38-58 | a header on line i with count n reads the next n rows and stores their records under its name, replacing any table of that name read before |
| DecoderProperties.TableHeaderOfLine | src/aton_format/core/decoder.py:38 | a header line with no surrounding whitespace and no '@' in front is read as a table header |
| DecoderProperties.HeaderLine | src/aton_format/core/decoder.py:38-41 | the header name(n): the encoder writes is, after strip(), a table header naming the table and its count |
| DecoderProperties.HeaderLineOf | src/aton_format/core/decoder.py:38-41 | a header line that starts with its name's first character and ends in ':' is read as that header |
| DecoderProperties.DecodeStep | src/aton_format/core/decoder.py:23-60 | a successful round moves the scan on to where the round stopped |
| DecoderProperties.BlankRowsNone | src/aton_format/core/decoder.py:47-55 | a blank last line gives a header no row |
| DecoderProperties.HeaderTableEnd | src/aton_format/core/decoder.py:38-62 | a header whose rows run to the end of the text ends the scan with that table stored |
| DecoderProperties.DecodeEnd | src/aton_format/core/decoder.py:62 | the scan after the last line returns the tables read |
| DecoderProperties.HeaderTable | src/aton_format/core/decoder.py:38-58 | after a header with count n on line i, the scan goes on after its rows with the table stored |
| DecoderProperties.BlankAfterHeader | src/aton_format/core/decoder.py:46-55 | name(1): followed by a blank line is a header with count 1 and no row |
| DecoderProperties.EmptyRowLost | src/aton_format/core/decoder.py:26-55 | the record after a header with count 1 is lost when its row is blank, as the row of a record equal to its defaults is: the table comes back empty |
| Splitting.NonEmptyParts | src/aton_format/core/decoder.py:160 | the kept parts are the non-empty ones, in order |
| Splitting.Width | src/aton_format/core/decoder.py:141-145 | the scanner takes backslash-quote as one pair and every other character alone |
| Splitting.PairStep | src/aton_format/core/decoder.py:141-145 | the pair backslash-quote joins the current part without touching the quote flag |
| Splitting.SingleStep | src/aton_format/core/decoder.py:146-158 | any other character toggles the quote flag, moves the bracket depth, or closes the part at a separator outside quotes and brackets |
| Splitting.SplitSmartScan | src/aton_format/core/decoder.py:132-160 | _split_smart as one pass over the characters, its parts stripped and the empty ones dropped |
| Splitting.SplitSmartParts | src/aton_format/core/decoder.py:153-160 | every part is non-empty and has no surrounding whitespace |
| Splitting.SplitSmartWithin | src/aton_format/core/decoder.py:132-160 | no part is longer than the text |
| Splitting.ScanChunk | src/aton_format/core/decoder.py:138-158 | a chunk without a split point only extends the current part |
| Splitting.TrackAppend | src/aton_format/core/decoder.py:138-158 | the scan of a concatenation starts its second chunk where the first ends |
| Splitting.TrackPlain | src/aton_format/core/decoder.py:146-158 | text without quotes, brackets or backslashes changes neither flag nor depth |
| Splitting.TrackEscaped | src/aton_format/core/decoder.py:141-147 | inside quotes an escaped string never closes them |
| Splitting.TrackQuoted | src/aton_format/core/decoder.py:141-147 | a quoted escaped string opens and closes one quote, unless it ends with a backslash, which pairs with the closing quote |
| Splitting.ScanAtEnd | src/aton_format/core/decoder.py:159 | at the end of the text the current part is flushed |
| Splitting.LastField | src/aton_format/core/decoder.py:159-160 | the last field is closed at the end of the text |
| Splitting.FieldThenComma | src/aton_format/core/decoder.py:152-156 | a field followed by the separator closes as one part |
| Splitting.CommaSpace | src/aton_format/core/decoder.py:152-156 | the separator ", " closes the current part and starts the next with a space, which strip() removes |
| Splitting.JoinSplit | src/aton_format/core/decoder.py:132-160 | ", ".join(fields) splits on ',' back into the fields when every field is safe |
| Literals.ParseValPlainStart | src/aton_format/core/decoder.py:109-122 | text that is no keyword, quoted string, '#' token or array goes to the float()/int() attempt |
| Literals.ItemText | src/aton_format/core/decoder.py:130 | an array item stripped of whitespace and single quotes is no longer than the item |
| Literals.IntText | src/aton_format/core/encoder.py:171 | str(int) is number text without a point |
| Literals.FloatText | src/aton_format/core/encoder.py:171 | str(float) is number text holding a point or an exponent mark |
| Literals.FloatPoint | src/aton_format/core/encoder.py:171 | str(float) has a point exactly when it is positional or has more than one significant digit |
| Literals.NumberTextSafe | src/aton_format/core/decoder.py:132-160 | number text is read back by the splitter as one part |
| Literals.QuoteRoundTrip | src/aton_format/core/encoder.py:168-169 | a quoted, escaped string parses back as that string |
| Literals.QuotedParse | src/aton_format/core/decoder.py:113-114 | text between double quotes parses as the string it holds, escapes undone |
| Literals.IntRoundTrip | src/aton_format/core/decoder.py:120 | int(str(i)) gives i back as an int |
| Literals.FloatRoundTrip | src/aton_format/core/decoder.py:120 | a normalized float whose text has a point parses back as itself |
| Literals.PointlessFloatReadsAsString | src/aton_format/core/decoder.py:119-122 | a float printed without a point goes to int(), which fails, so it reads back as the string of its text |
| Literals.LetterNotInt | src/aton_format/core/decoder.py:120 | int() refuses a text holding a printable ASCII character other than a digit, a sign or '_' |
| Literals.SmallFloatReadsAsString | src/aton_format/core/decoder.py:119-122 | 0.00001 is written 1e-05 and read back as the string '1e-05' |
| Literals.StringRoundTrip | src/aton_format/core/encoder.py:164-169 | a string rendered in a row (bare when it starts with '#', quoted otherwise) parses back as itself |
| Literals.WordRoundTrip | src/aton_format/core/decoder.py:119-122 | a word with no digit, point or special start parses as itself |
| Literals.WordNoKeyword | src/aton_format/core/decoder.py:110-118 | a word is no keyword, quote, '#' token or array |
| Literals.WordNoNumber | src/aton_format/core/decoder.py:119-122 | int(word) raises, so the word stays a string |
| Literals.ItemRoundTrip | src/aton_format/core/decoder.py:124-130 | repr() of an array item is one part and reads back as the item once stripped |
| Literals.NumberItem | src/aton_format/core/decoder.py:120 | repr() of a number item is number text that parses back as it |
| Literals.WordItem | src/aton_format/core/decoder.py:130 | repr() of a word item, single-quoted, reads back as the word |
| Literals.WordUnquoted | src/aton_format/core/decoder.py:130 | strip("'") of a single-quoted word is the word |
| Literals.ItemReprs | src/aton_format/core/encoder.py:171 | the items' reprs, one per item, as repr() of a list joins them |
| Literals.TrackInside | src/aton_format/core/decoder.py:148-152 | inside brackets no split happens and the depth is kept |
| Literals.ParsedItems | src/aton_format/core/decoder.py:130 | each split item stripped of quotes and parsed |
| Literals.BracketDispatch | src/aton_format/core/decoder.py:117-118 | bracketed text always goes to _parse_array |
| Literals.BracketContent | src/aton_format/core/decoder.py:124-130 | the content between the brackets is [] when empty, else split and parsed item by item |
| Literals.ParseBracketed | src/aton_format/core/decoder.py:117-130 | bracketed text parses to the array of its split, parsed items |
| Literals.ArrayRoundTrip | src/aton_format/core/decoder.py:117-130 | str() of an array of ints, floats and words is one field without a newline, and parses back as the array |
| Literals.ItemsJoined | src/aton_format/core/decoder.py:124-130 | the joined item reprs have no space at either end and split back into the items |
| Literals.JoinEnds | src/aton_format/core/decoder.py:126 | a join of safe fields has no space at either end, so strip() keeps it |
| Literals.RowLiteral | src/aton_format/core/encoder.py:160-171 | a row literal is one field of a data line that parses back as its value |
| Literals.DefaultLiteral | src/aton_format/core/encoder.py:141-149 | a defaults literal, strings always quoted, parses back as its value |
| Literals.KeywordLiteral | src/aton_format/core/encoder.py:161-163 | null, true and false are one field each |
| Literals.NumberLiteral | src/aton_format/core/encoder.py:171 | a number literal is one field that parses back as the number |
| Literals.TokenLiteral | src/aton_format/core/encoder.py:165-166 | a bare '#' token is one field |
| Literals.QuotedLiteral | src/aton_format/core/encoder.py:168-169 | a quoted string without newline or final backslash is one field |
| Literals.ArrayEnds | src/aton_format/core/encoder.py:171 | str() of a list starts with '[' and ends with ']' |
| Text.IndexOf | src/aton_format/core/decoder.py:67 | str.index(c) is found exactly when c occurs, and is the first position of c |
| Text.LastIndexOf | src/aton_format/core/decoder.py:67 | str.rindex(c) is found exactly when c occurs, and is the last position of c |
| Text.Slice | src/aton_format/core/decoder.py:114 | Python slicing s[i:j] is s[i..j] within bounds and empty when j <= i |
| Text.LStrip | src/aton_format/core/decoder.py:24 | lstrip() keeps a suffix that starts with no whitespace |
| Text.RStrip | src/aton_format/core/decoder.py:17 | rstrip() keeps a prefix that ends with no whitespace |
| Text.StripNoSpaceEnds | src/aton_format/core/decoder.py:24 | strip() keeps a text that has no whitespace at either end |
| Text.StripIdempotent | src/aton_format/core/decoder.py:24-48 | stripping twice is stripping once |
| Text.Split | src/aton_format/core/decoder.py:17 | str.split(c): the pieces between the occurrences of c, never empty, none holding c |
| Text.SplitJoin | src/aton_format/core/decoder.py:17 | splitting a join on its separator gives back the pieces when none holds the separator |
| Text.EscapeQuotes | src/aton_format/core/encoder.py:128-168 | the escaped text is never shorter and is empty only for the empty string; UnescapeEscape is its inverse |
| Text.UnescapeEscape | src/aton_format/core/decoder.py:114 | replace('\\"', '"') undoes the escaping for every string |
| Text.NatToString | src/aton_format/core/encoder.py:171 | str(n) is non-empty decimal digits whose value is n |
| Text.IntToString | src/aton_format/core/encoder.py:171 | str(i) has no whitespace; it is the digits of i when i >= 0, and a minus sign followed by digits otherwise |
| Text.Zeros | src/aton_format/core/encoder.py:171 | the string of n zeros |
| Text.PadDigits | src/aton_format/core/encoder.py:171 | exactly w digits whose value is n |
| Text.ParseInt | src/aton_format/core/decoder.py:41 | int(text) ignores surrounding whitespace and succeeds only on a non-empty stripped text; IntToStringRoundTrip reads every str(i) back |
| Text.ParseIntText | src/aton_format/core/decoder.py:120 | int() on stripped text succeeds only on non-empty text, and without a minus sign gives a non-negative value |
| Text.IntToStringRoundTrip | src/aton_format/core/decoder.py:120 | int(str(i)) == i |
| Text.Normalize | src/aton_format/core/decoder.py:120 | the result is normalized: no trailing zero in its fraction |
| Text.ParseDecimal | src/aton_format/core/decoder.py:120 | float(text) on finite decimals gives a normalized exact decimal; DecimalRoundTrip reads every str(x) back |
| Text.ParseUnsignedDecimal | src/aton_format/core/decoder.py:120 | the mantissa and optional exponent read as a normalized exact decimal |
| Text.ExponentMark | src/aton_format/core/decoder.py:120 | the position of the first e or E |
| Text.ParseMantissa | src/aton_format/core/decoder.py:120 | digits with at most one point read as a normalized exact decimal |
| Text.Scale | src/aton_format/core/decoder.py:120 | m * 10^(x - f) as a normalized exact decimal |
| Text.ParseDecimalParts | src/aton_format/core/decoder.py:120 | sign, integer digits, a point and fraction digits are read by float() as the value they write |
| Text.ParseStripped | src/aton_format/core/decoder.py:120 | float() gives the same result on a text that strip() keeps |
| Text.DivModPow10 | src/aton_format/core/encoder.py:171 | the quotient and remainder of mag by 10^e, remainder below 10^e |
| Text.PointDigits | src/aton_format/core/encoder.py:171 | the digits around the point start and end with a digit and hold no whitespace |
| Text.TrimZeros | src/aton_format/core/encoder.py:171 | n is the significant digits times a power of ten, and the significant digits of a positive n end in a non-zero digit |
| Text.DecimalToString | src/aton_format/core/encoder.py:171 | str() of a float is non-empty and has no whitespace; positional or in exponent notation as Python prints it, which DecimalRoundTrip reads back |
| Text.SciTextChars | src/aton_format/core/encoder.py:171 | exponent notation is number characters, first and last a digit |
| Text.PointDigitsValue | src/aton_format/core/decoder.py:120 | the positional digits read back as one number and its fraction width |
| Text.DecimalRoundTrip | src/aton_format/core/decoder.py:120 | float(str(x)) == x, in both notations |
| Text.SciTextParses | src/aton_format/core/decoder.py:120 | exponent notation reads back as its digits scaled by the exponent |
| Text.ExponentParts | src/aton_format/core/decoder.py:120 | a float text splits at its first e into mantissa and exponent |
| Text.MantissaParses | src/aton_format/core/decoder.py:120 | the mantissa reads back as its digits with all but one after the point |
| Text.SignedSciParses | src/aton_format/core/decoder.py:120 | a sign followed by exponent notation reads back as its signed, scaled digits |
| Text.SciScale | src/aton_format/core/decoder.py:120 | the significant digits scaled by the exponent give the value back |
| Text.StrLessIrreflexive | src/aton_format/query/engine.py:41-45 | no string sorts before itself |
| Text.StrLessTransitive | src/aton_format/query/engine.py:41-45 | string order by code point is transitive |
| Text.StrLessTotal | src/aton_format/query/engine.py:41-45 | of two different strings one sorts before the other |
| Text.StrLessAsymmetric | src/aton_format/query/engine.py:41-45 | two strings never sort before each other |
| Encoder.FirstNonDict | src/aton_format/core/encoder.py:120-122 | the index of the first record that is not a dict, every record before it being one; None when all are dicts |
| Encoder.TablesFault | src/aton_format/core/encoder.py:115-122 | no fault exactly when no table has one |
| Encoder.ValidateData | src/aton_format/core/encoder.py:110-122 | _validate_data: not a dict, a table that is not a list, or the first record that is not a dict, the tables and records in order |
| Encoder.InferSchema | src/aton_format/core/encoder.py:175-181 | the schema is each key of the first record with its type name, in order |
| Encoder.Occurrences | src/aton_format/core/encoder.py:200 | Counter's count of a value is at most the number of values |
| Encoder.Counts | src/aton_format/core/encoder.py:200 | each value's count is its number of values == it |
| Encoder.FirstMax | src/aton_format/core/encoder.py:201 | the position of a largest count, every earlier count being smaller, as most_common(1) keeps the first counted of equal counts |
| Encoder.SampleSize | src/aton_format/core/encoder.py:189 | min(100, n) |
| Encoder.Fields | src/aton_format/core/encoder.py:192-194 | the items of each dict, in order |
| Encoder.InferDefaults | src/aton_format/core/encoder.py:183-207 | _infer_defaults: nothing for no records, an AttributeError for a sampled non-dict, else the defaults of the collected columns |
| Encoder.CollectFieldValues | src/aton_format/core/encoder.py:192-194 | the first loop: an AttributeError at a sampled record that is not a dict, else every sampled record's items in order |
| Encoder.PickDefaults | src/aton_format/core/encoder.py:196-206 | the second loop: a default for every field whose column passes the test |
| Encoder.AddRecordValues | src/aton_format/core/encoder.py:193-194 | field_values[key].append(value) for each item of one record |
| Encoder.FormatRecord | src/aton_format/core/encoder.py:152-173 | the row of one record: the literals of the columns whose value is not the default, comma-joined, or the error of a value with no literal |
| Encoder.SchemaEntries | src/aton_format/core/encoder.py:134 | one name:type entry per column, in order |
| Encoder.Insert | src/aton_format/core/encoder.py:140 | inserting an entry into a sorted dict adds one entry |
| Encoder.SortByKey | src/aton_format/core/encoder.py:127-140 | sorted(d.items()) has as many entries as d; SortByKeySorted gives the order and the contents |
| Encoder.FormatDefaults | src/aton_format/core/encoder.py:137-150 | the @defaults line of the sorted entries, strings quoted and escaped |
| Encoder.FormatDictionary | src/aton_format/core/encoder.py:124-130 | the @dict line of the sorted entries, values quoted and escaped |
| Encoder.TablePartsFrom | src/aton_format/core/encoder.py:68-92 | once the defaults are chosen, a table's parts are its @schema line, its @defaults line when there are defaults, the @queryable marker when asked, the header after a blank line, and the rows, unless a row fails |
| Encoder.EncodeTable | src/aton_format/core/encoder.py:64-92 | the parts of one table, built as encode builds them |
| Encoder.FormatRows | src/aton_format/core/encoder.py:90-92 | the loop over the records: one row per record, each indented by two spaces, or the first row's error |
| Encoder.BuildLayout | src/aton_format/core/encoder.py:55-94 | the text of a document and its dictionary: the @dict line and a blank line when there are entries, then every list-valued table's parts, joined by newlines |
| Encoder.Encoder.constructor | src/aton_format/core/encoder.py:16-37 | the settings are stored and a fresh compression engine starts with an empty dictionary and counter 0 |
| Encoder.Encoder.Encode | src/aton_format/core/encoder.py:39-97 | the result and the engine's new state are those of encode for the settings, the data and the compress flag from the old state |
| Encoder.Encoder.EncodeWithQuery | src/aton_format/core/encoder.py:99-108 | the result and the engine's new state are those of parse, execute and encode of the one-table result, with errors wrapped |
| EncoderProperties.ValidateAccepts | src/aton_format/core/encoder.py:110-122 | a document passes validation exactly when it is a dict of lists of dicts |
| EncoderProperties.ValidationRejects | src/aton_format/core/encoder.py:43-97 | with validation on, a rejected document fails with its fault, wrapped as an encoding failure, before anything is compressed |
| EncoderProperties.NonDictWithoutValidation | src/aton_format/core/encoder.py:63-97 | without validation, a document that is not a dict fails on .items() |
| EncoderProperties.FirstTableNotList | src/aton_format/core/encoder.py:115-119 | the fault names the first table that is not a list |
| EncoderProperties.JoinStarts | src/aton_format/core/encoder.py:94 | the text starts with the first part |
| EncoderProperties.BodyStartsWithSchema | src/aton_format/core/encoder.py:76 | the first part of a table body is a @schema line |
| EncoderProperties.NoDictionaryWithoutCompression | src/aton_format/core/encoder.py:47-60 | with compress=False or the FAST mode nothing is compressed, the engine is untouched and the text begins with a @schema line or is empty |
| EncoderProperties.DefaultForChosen | src/aton_format/core/encoder.py:196-206 | a column's default is a most common value, counted more than 0.6 times the number of values, among hashable values only |
| EncoderProperties.DefaultForExists | src/aton_format/core/encoder.py:196-206 | a column gets a default exactly when all its values are hashable and one occurs more than 0.6 times the number of values |
| EncoderProperties.DefaultForFirst | src/aton_format/core/encoder.py:200-201 | of several equally common values the first in the column wins |
| EncoderProperties.ColumnEmpty | src/aton_format/core/encoder.py:192-194 | a field no record has gets an empty column |
| EncoderProperties.AddRecordMeaning | src/aton_format/core/encoder.py:193-194 | adding one record's values appends to each of its fields' columns |
| EncoderProperties.FieldValuesMeaning | src/aton_format/core/encoder.py:190-194 | field_values[k] is present exactly when some record has k, and then holds the records' values of k in order |
| EncoderProperties.PutDistinct | src/aton_format/core/encoder.py:194 | adding to a dict keeps its keys distinct |
| EncoderProperties.ChooseDefaultsMeaning | src/aton_format/core/encoder.py:196-206 | over columns with distinct names each column gets its own chosen default and no other |
| EncoderProperties.DefaultsMeaning | src/aton_format/core/encoder.py:183-207 | over the first min(100, n) records, a field gets a default exactly when some sampled record has it and its column passes the test, and then the default is the column's chosen value |
| EncoderProperties.DefaultsHashable | src/aton_format/core/encoder.py:199-206 | defaults never hold a list or a dict |
| EncoderProperties.InsertSorted | src/aton_format/core/encoder.py:127-140 | inserting into a sorted dict keeps it sorted and adds exactly the entry |
| EncoderProperties.SortByKeySorted | src/aton_format/core/encoder.py:127-140 | sorted(d.items()) is ordered by key and holds the same entries |
| EncoderProperties.RowsFromSucceeds | src/aton_format/core/encoder.py:90-97 | the rows loop succeeds exactly when every record can be formatted |
| EncoderProperties.RowsFromMeaning | src/aton_format/core/encoder.py:90-92 | one indented row per record, in order, after the rows already made |
| EncoderProperties.RowsIndented | src/aton_format/core/encoder.py:90-92 | the rows of a table that can be formatted: one per record, each indented by two spaces |
| EncoderProperties.TableLayout | src/aton_format/core/encoder.py:68-92 | the parts of a table: its @schema line first, the header naming the record count after a blank line, and one row per record last |
| EncoderProperties.TableSplit | src/aton_format/core/encoder.py:76-92 | the parts of a table are its head lines and then its indented rows |
| EncoderProperties.SchemaLineStarts | src/aton_format/core/encoder.py:135 | the schema line starts with "@schema[" |
| EncoderProperties.EmptyTable | src/aton_format/core/encoder.py:71-87 | an empty table: an empty @schema line and the header with count 0 |
| EncoderProperties.RowPrefix | src/aton_format/core/encoder.py:155-173 | a row holds the literals of the columns before the first elided one, when every column from there on is elided |
| QueryAst.CompilePattern | src/aton_format/core/types.py:75 | the regular expression of a LIKE pattern, character by character: % is .*, _ and . are any one character, every other character stands for itself |
| QueryAst.PyIn | src/aton_format/core/types.py:78-80 | x in a list is membership under == |
| QueryAst.MissingFieldIsFalse | src/aton_format/core/types.py:55-56 | a condition on a field the record lacks is false, whatever the operator |
| QueryAst.OrderingOnNullIsFalse | src/aton_format/core/types.py:64-71 | <, >, <= and >= are false on a None record value |
| QueryAst.OrderingOnNumbers | src/aton_format/core/types.py:64-71 | on numbers <, >, <= and >= compare values across bool, int and float |
| QueryAst.OrderingOnStrings | src/aton_format/core/types.py:64-71 | on strings they compare by code point |
| QueryAst.OrderingTypeError | src/aton_format/core/types.py:64-71 | comparing with None, a dict or a value of another kind raises TypeError |
| QueryAst.BetweenInclusive | src/aton_format/core/types.py:81-83 | BETWEEN on numbers is the inclusive test low <= v <= high |
| QueryAst.BetweenEnds | src/aton_format/core/types.py:81-83 | both ends of BETWEEN belong to the range |
| QueryAst.BetweenOnNullIsFalse | src/aton_format/core/types.py:83 | BETWEEN is false on a None record value |
| QueryAst.InEmptyList | src/aton_format/core/types.py:77-80 | IN with an empty list is false and NOT IN is true |
| QueryAst.InListMembership | src/aton_format/core/types.py:77-80 | IN on a non-empty list is membership under ==, and NOT IN its negation |
| QueryAst.NotInNegatesIn | src/aton_format/core/types.py:77-80 | whenever the value is truthy, NOT IN succeeds exactly when IN does, with the opposite answer |
| QueryAst.LikeNonStringIsFalse | src/aton_format/core/types.py:73-74 | LIKE never matches a value that is not a string |
| QueryAst.LikeMeaning | src/aton_format/core/types.py:72-76 | LIKE on a string holds exactly when some part s[i..j] of it matches the whole compiled pattern |
| QueryAst.UnknownOperatorIsFalse | src/aton_format/core/types.py:84 | any operator the evaluator does not know, "<>" included, is false |
| QueryAst.SearchAnywhere | src/aton_format/core/types.py:76 | re.search finds a match exactly when the pattern matches from some position |
| QueryAst.MatchHereMeaning | src/aton_format/core/types.py:76 | the backtracking matcher matches at the start exactly when some prefix matches the whole pattern |
| QueryAst.MatchHereIgnoresCase | src/aton_format/core/types.py:76 | matching ignores ASCII case in the subject, as re.IGNORECASE does |
| QueryAst.PercentMatchesEverything | src/aton_format/core/types.py:75-76 | the pattern % alone matches every string |
| QueryAst.AndIsConjunction | src/aton_format/core/types.py:95-96 | AND is true exactly when every operand is, and true on none |
| QueryAst.OrIsDisjunction | src/aton_format/core/types.py:97-98 | OR is true exactly when some operand is, and false on none |
| QueryAst.AndShortCircuits | src/aton_format/core/types.py:96 | AND stops at the first false operand: an error in a later one does not surface |
| QueryAst.NotNegatesFirst | src/aton_format/core/types.py:99-100 | NOT negates its first operand, and errors pass through |
| QueryAst.OtherOperatorIsFirst | src/aton_format/core/types.py:101-103 | any other operator evaluates to its first operand |
| QueryAst.NoOperandIndexError | src/aton_format/core/types.py:100-103 | NOT, or another single-operand operator, on no operands raises IndexError |
| QueryAst.OpaqueIsFalse | src/aton_format/core/types.py:105-111 | an operand that is neither a condition nor an expression is false |
| QueryEngine.Filter | src/aton_format/query/engine.py:30-31 | the comprehension succeeds exactly when no record's test raises, and then keeps only records of the table whose test is true |
| QueryEngine.Project | src/aton_format/query/engine.py:35-38 | the projected record has exactly the selected fields, each once in first-listed order, each with the record's value or None |
| QueryEngine.SortKeys | src/aton_format/query/engine.py:44 | one key per record |
| QueryEngine.Insert | src/aton_format/query/engine.py:43-45 | inserting a position into a sort order adds one valid position |
| QueryEngine.InsertPermutation | src/aton_format/query/engine.py:43-45 | insertion adds the new position and loses nothing |
| QueryEngine.ConsSorted | src/aton_format/query/engine.py:43-45 | a sorted order stays sorted behind a head that may come first |
| QueryEngine.InsertSorted | src/aton_format/query/engine.py:43-45 | inserting a position later than all others keeps the order sorted and stable |
| QueryEngine.Range | src/aton_format/query/engine.py:43 | the positions 0 to n-1 in order |
| QueryEngine.SortedIndices | src/aton_format/query/engine.py:43-45 | the sort order holds n positions, each below n |
| QueryEngine.SortedIndicesPermutation | src/aton_format/query/engine.py:43-45 | the sort order holds each position exactly once |
| QueryEngine.SortedIndicesSorted | src/aton_format/query/engine.py:43-45 | the sort order is sorted by key and stable |
| QueryEngine.OrderBy | src/aton_format/query/engine.py:41-45 | sorted(records, key=get(field, 0), reverse=desc): TypeError exactly when the keys are not comparable, else the records rearranged by the stable sort order |
| QueryEngine.SliceBound | src/aton_format/query/engine.py:49-53 | a Python slice bound clamps to the length of the list |
| QueryEngine.Select | src/aton_format/query/engine.py:34-38 | the projection keeps one record per record |
| QueryEngine.Window | src/aton_format/query/engine.py:48-53 | records[offset:] then records[:limit] keep only records of the list and never more |
| QueryEngine.Unwindowed | src/aton_format/query/engine.py:30-45 | filtered, projected and sorted, never more than the table holds |
| QueryEngine.Execute | src/aton_format/query/engine.py:21-55 | a query on a table the data lacks fails with TableNotFound |
| QueryEngineProperties.FilterSelects | src/aton_format/query/engine.py:30-31 | the filtered list is the subsequence of the records whose test is true, at increasing positions |
| QueryEngineProperties.ResultsSatisfyWhere | src/aton_format/query/engine.py:21-55 | without a SELECT every result record is a record of the table whose WHERE expression is true |
| QueryEngineProperties.SelectedKeysExactly | src/aton_format/query/engine.py:34-38 | with a non-empty SELECT every result record has exactly the selected keys, each once, in first-listed order |
| QueryEngineProperties.KeyLessIsPythonLess | src/aton_format/query/engine.py:43-45 | where a < b does not raise, the sort's key order is Python's <, and its negations are <= and >= |
| QueryEngineProperties.OrderByIsStableSort | src/aton_format/query/engine.py:41-45 | ORDER BY rearranges the records by a permutation; adjacent keys are in order for ASC and DESC, and equal keys keep their input order |
| QueryEngineProperties.InsertAppends | src/aton_format/query/engine.py:43-45 | inserting a key that outranks none already placed appends it |
| QueryEngineProperties.TiesKeepOrder | src/aton_format/query/engine.py:43-45 | when every key ties, sorting leaves the positions in order |
| QueryEngineProperties.MissingSortFieldKeepsOrder | src/aton_format/query/engine.py:44 | sorting on a field no record has sorts on the key 0 everywhere, so the records keep their order in both directions |
| QueryEngineProperties.MissingKeysAreZero | src/aton_format/query/engine.py:44 | a field no record has gives every record the key 0 |
| QueryEngineProperties.IdentityOrder | src/aton_format/query/engine.py:43-45 | a sort order that leaves the positions in order returns the table as it is |
| QueryEngineProperties.MixedSortKeysFail | src/aton_format/query/engine.py:43-45 | sorting fails with TypeError when two keys are of different kinds, numbers counting as one kind, or one is None or a dict |
| QueryEngineProperties.IncomparableSortKeysFail | src/aton_format/query/engine.py:43-45 | sorting fails when two keys are ones Python's < refuses, lists that differ first at such a pair included |
| QueryEngineProperties.ResultNoLongerThanTable | src/aton_format/query/engine.py:21-55 | the whole result is never longer than the queried table |
| QueryEngineProperties.WindowSlice | src/aton_format/query/engine.py:48-53 | with non-negative OFFSET and LIMIT the window is the slice from the offset to offset + limit, clamped; OFFSET past the end leaves nothing |
| QueryEngineProperties.NegativeOffsetKeepsLast | src/aton_format/query/engine.py:48-49 | a negative OFFSET counts from the end: without LIMIT it keeps the last -offset records, all of them when there are fewer |
| QueryEngineProperties.PaginationWindow | src/aton_format/query/engine.py:21-55 | an executed query returns its window of the sorted records |
| QueryEngineProperties.OffsetPastEndIsEmpty | src/aton_format/query/engine.py:48-49 | an OFFSET at or past the end of the table leaves nothing |
| QueryEngineProperties.LargeLimitKeepsAll | src/aton_format/query/engine.py:52-53 | a LIMIT at least the table's length returns everything OFFSET leaves |
| QueryEngineProperties.LimitZeroIgnored | src/aton_format/query/engine.py:52-53 | LIMIT 0 is falsy and returns the same as no LIMIT |
| QueryTokenizer.RunLength | src/aton_format/query/parser.py:30-37 | the run of a character class from pos stays within the text |
| QueryTokenizer.RunLengthMeaning | src/aton_format/query/parser.py:30-37 | the run is the longest stretch of the class from pos: every character in it is of the class and the next one is not |
| QueryTokenizer.MatchRe | src/aton_format/query/parser.py:41-53 | pattern.match(query, pos) gives a match length that stays within the text |
| QueryTokenizer.FirstMatch | src/aton_format/query/parser.py:52-60 | the first matching pattern's kind and a non-empty match length within the text |
| QueryTokenizer.Lex | src/aton_format/query/parser.py:52-60 | the lexeme at pos has a kind and a non-empty length within the text |
| QueryTokenizer.Tokenize | src/aton_format/query/parser.py:44-65 | tokenize: the position advances over each match, whitespace is dropped, an unmatched character fails |
| QueryTokenizer.MatchAt | src/aton_format/query/parser.py:52-60 | the inner loop tries the patterns in order and takes the first match |
| QueryTokenizer.FirstMatchIsFirst | src/aton_format/query/parser.py:52-60 | nothing is matched exactly when every pattern fails; otherwise the match is that of some pattern all of whose predecessors fail |
| QueryTokenizer.LexIsFirstMatch | src/aton_format/query/parser.py:15-60 | the 22 patterns are tried in source order at each position and the first match wins |
| QueryTokenizer.NoWhitespaceTokens | src/aton_format/query/parser.py:56-57 | no token of a successful tokenization is whitespace |
| QueryTokenizer.ErrorNamesPosition | src/aton_format/query/parser.py:62-63 | the only error is a character no pattern matches, reported with its position and the character |
| QueryTokenizer.KeywordMeaning | src/aton_format/query/parser.py:16-41 | \bWORD\b with IGNORECASE matches exactly the word, in any case, between word boundaries |
| QueryTokenizer.PhraseMeaning | src/aton_format/query/parser.py:19-41 | \bORDER\s+BY\b matches exactly the two words, in any case, with whitespace between, up to the end of the second word |
| QueryTokenizer.NumberParts | src/aton_format/query/parser.py:31 | -?\d+\.?\d* takes an optional minus, a run of digits, an optional point and a run of digits, and needs one digit first |
| QueryTokenizer.NumberPartsText | src/aton_format/query/parser.py:31 | the sign is a minus, the runs are digits, the point is a '.', and no fraction digits come without it |
| QueryTokenizer.NumberMatchShape | src/aton_format/query/parser.py:31 | what the NUMBER pattern matches is number text |
| QueryTokenizer.QuotedMeaning | src/aton_format/query/parser.py:32 | a quoted string is the quote, the longest run of other characters and the same quote, when it closes |
| QueryTokenizer.StringMatchShape | src/aton_format/query/parser.py:32 | a STRING match starts and ends with the same quote and holds no other one |
| QueryTokenizer.LowerCaseKeyword | src/aton_format/query/parser.py:16-41 | "select" is the keyword SELECT |
| TokenizerProperties.FirstMatchAt | src/aton_format/query/parser.py:52-60 | patterns that all fail at pos leave the match to the ones after them |
| TokenizerProperties.FirstMatchNone | src/aton_format/query/parser.py:52-63 | when every pattern fails, nothing is matched |
| TokenizerProperties.FirstMatchKind | src/aton_format/query/parser.py:52-60 | when one pattern alone has a kind, a lexeme of that kind is its match |
| TokenizerProperties.OperatorPatternOnly | src/aton_format/query/parser.py:33 | the pattern of an OPERATOR token is the operator pattern |
| TokenizerProperties.SymbolText | src/aton_format/query/parser.py:33-41 | a symbol matched ignoring case is the symbol itself |
| TokenizerProperties.AltSymbol | src/aton_format/query/parser.py:33 | the first alternative is taken when its symbol is there |
| TokenizerProperties.OperatorMatchText | src/aton_format/query/parser.py:33 | what the operator pattern matches is one of <=, >=, !=, <>, =, <, > |
| TokenizerProperties.OperatorLexeme | src/aton_format/query/parser.py:33 | a lexeme of kind OPERATOR is one of the seven spellings |
| TokenizerProperties.OperatorTokens | src/aton_format/query/parser.py:33-65 | every OPERATOR token tokenize returns holds one of the seven spellings |
| TokenizerProperties.FoldedIsUpper | src/aton_format/query/parser.py:41 | for a word of capitals, matching ignoring case is matching the text's upper-cased letters |
| TokenizerProperties.KeywordName | src/aton_format/query/parser.py:16-29 | each keyword's name is a word of capitals naming that keyword only |
| TokenizerProperties.OtherWordFails | src/aton_format/query/parser.py:16-29 | where a word stands alone, the pattern of a keyword of another name fails |
| TokenizerProperties.OtherKeywordsFail | src/aton_format/query/parser.py:16-29 | where a word stands alone, every keyword pattern of another name fails |
| TokenizerProperties.KeywordsFirst | src/aton_format/query/parser.py:15-38 | the list has 22 patterns, the 14 keyword patterns first and IDENTIFIER next |
| TokenizerProperties.KeywordInAnyCase | src/aton_format/query/parser.py:16-60 | every keyword but ORDER, in any casing, between word boundaries, is lexed as that keyword over the length of its name |
| TokenizerProperties.OrderByInAnyCase | src/aton_format/query/parser.py:19-60 | ORDER BY in any casing and with any whitespace between the words is one ORDER lexeme running to the end of BY |
| TokenizerProperties.OrderPatternMatch | src/aton_format/query/parser.py:19 | ORDER's pattern matches the phrase to the end of BY |
| TokenizerProperties.RunToBoundary | src/aton_format/query/parser.py:30 | a run of word characters that ends at a word boundary has exactly that length |
| TokenizerProperties.IdentifierWord | src/aton_format/query/parser.py:30 | a word standing alone matches the identifier pattern to its end |
| TokenizerProperties.NoKeywordMatches | src/aton_format/query/parser.py:16-29 | a word naming no keyword matches no keyword pattern |
| TokenizerProperties.NonKeywordIsIdentifier | src/aton_format/query/parser.py:16-60 | a word of letters naming no keyword, standing alone in any casing, is an IDENTIFIER lexeme of its length |
| TokenizerProperties.LiteralWordsAreIdentifiers | src/aton_format/query/parser.py:15-38 | TRUE, FALSE and NULL are not keywords: in any casing they are identifiers |
| QueryParsing.FindMarker | src/aton_format/query/parser.py:79 | the first position at or after i where "@query[" starts, ignoring case, or None when there is none |
| QueryParsing.LastIndex | src/aton_format/query/parser.py:79 | the last index in a range holding the character, or None when none does, as the greedy (.*)\] backs off to the last ']' |
| QueryParsing.ConsumeAt | src/aton_format/query/parser.py:114-120 | _consume(k) succeeds exactly when the current token is of kind k, and then gives its text and the next position |
| QueryParsing.Unquote | src/aton_format/query/parser.py:230 | value[1:-1] drops the first and last character |
| QueryParsing.ValueAt | src/aton_format/query/parser.py:226-245 | a value is one token |
| QueryParsing.ValuesRest | src/aton_format/query/parser.py:205-207 | the ", value" loop keeps the values read so far and never moves back |
| QueryParsing.InAt | src/aton_format/query/parser.py:200-210 | IN ( value, ... ) consumes at least one token |
| QueryParsing.SpecialAt | src/aton_format/query/parser.py:198-224 | a special condition consumes at least one token |
| QueryParsing.LikeAt | src/aton_format/query/parser.py:212-215 | LIKE value consumes at least one token |
| QueryParsing.BetweenAt | src/aton_format/query/parser.py:217-222 | BETWEEN low AND high consumes at least one token |
| QueryParsing.Combine | src/aton_format/query/parser.py:153-165 | the node an operator builds over the operands parsed, with the parse's end, and the operands' error otherwise |
| QueryParsing.OrAt | src/aton_format/query/parser.py:144-155 | an or-expression consumes at least one token |
| QueryParsing.OrRest | src/aton_format/query/parser.py:150-152 | the OR loop keeps the operands read so far and never moves back |
| QueryParsing.AndAt | src/aton_format/query/parser.py:157-165 | an and-expression consumes at least one token |
| QueryParsing.AndRest | src/aton_format/query/parser.py:161-163 | the AND loop keeps the operands read so far and never moves back |
| QueryParsing.CondAt | src/aton_format/query/parser.py:167-196 | a condition consumes at least one token |
| QueryParsing.GroupAt | src/aton_format/query/parser.py:170-174 | ( or-expression ) consumes at least one token |
| QueryParsing.NotAt | src/aton_format/query/parser.py:177-180 | NOT condition consumes at least one token |
| QueryParsing.FieldConditionAt | src/aton_format/query/parser.py:183-196 | field op value, or a special condition, consumes at least one token |
| QueryParsing.FieldsRest | src/aton_format/query/parser.py:133-135 | the ", field" loop keeps the fields read so far and never moves back |
| QueryParsing.SelectAt | src/aton_format/query/parser.py:126-137 | a SELECT clause consumes at least one token |
| QueryParsing.WhereAt | src/aton_format/query/parser.py:139-142 | a WHERE clause consumes at least one token |
| QueryParsing.OrderByAt | src/aton_format/query/parser.py:247-259 | an ORDER BY clause consumes at least one token |
| QueryParsing.CountAt | src/aton_format/query/parser.py:261-271 | LIMIT n or OFFSET n consumes at least one token |
| QueryParsing.Present | src/aton_format/query/parser.py:89-93 | a clause that is there gives its value and end, or its error |
| QueryParsing.OptionalSelectAt | src/aton_format/query/parser.py:89 | an optional SELECT never moves back |
| QueryParsing.OptionalWhereAt | src/aton_format/query/parser.py:90 | an optional WHERE never moves back |
| QueryParsing.OptionalOrderByAt | src/aton_format/query/parser.py:91 | an optional ORDER BY never moves back |
| QueryParsing.OptionalLimitAt | src/aton_format/query/parser.py:92 | an optional LIMIT never moves back |
| QueryParsing.OptionalOffsetAt | src/aton_format/query/parser.py:93 | an optional OFFSET never moves back; absent it is 0 |
| QueryParsing.QueryAt | src/aton_format/query/parser.py:88-103 | a parsed query consumes at least the table name |
| QueryParsing.QueryParser.constructor | src/aton_format/query/parser.py:71-74 | no tokens and position 0 |
| QueryParsing.QueryParser.Consume | src/aton_format/query/parser.py:114-120 | _consume moves the position on exactly as ConsumeAt says and leaves it in place on an error |
| QueryParsing.QueryParser.ParseTable | src/aton_format/query/parser.py:122-124 | the table name as ConsumeAt of IDENTIFIER |
| QueryParsing.QueryParser.ParseSelect | src/aton_format/query/parser.py:126-137 | the result and the new position are those of SelectAt |
| QueryParsing.QueryParser.ParseMoreFields | src/aton_format/query/parser.py:133-135 | the loop's result and position are those of FieldsRest |
| QueryParsing.QueryParser.ParseWhere | src/aton_format/query/parser.py:139-142 | the result and the new position are those of WhereAt |
| QueryParsing.QueryParser.ParseOr | src/aton_format/query/parser.py:144-155 | the result and the new position are those of OrAt |
| QueryParsing.QueryParser.ParseMoreOrOperands | src/aton_format/query/parser.py:150-152 | the loop's result and position are those of OrRest |
| QueryParsing.QueryParser.ParseAnd | src/aton_format/query/parser.py:157-165 | the result and the new position are those of AndAt |
| QueryParsing.QueryParser.ParseMoreAndOperands | src/aton_format/query/parser.py:161-163 | the loop's result and position are those of AndRest |
| QueryParsing.QueryParser.ParseCondition | src/aton_format/query/parser.py:167-196 | the result and the new position are those of CondAt |
| QueryParsing.QueryParser.ParseSpecialCondition | src/aton_format/query/parser.py:198-224 | the result and the new position are those of SpecialAt |
| QueryParsing.QueryParser.ParseLikePattern | src/aton_format/query/parser.py:212-215 | the result and the new position are those of LikeAt |
| QueryParsing.QueryParser.ParseInList | src/aton_format/query/parser.py:200-210 | the result and the new position are those of InAt |
| QueryParsing.QueryParser.ParseMoreValues | src/aton_format/query/parser.py:205-207 | the loop's result and position are those of ValuesRest |
| QueryParsing.QueryParser.ParseBetweenRange | src/aton_format/query/parser.py:217-222 | the result and the new position are those of BetweenAt |
| QueryParsing.QueryParser.ParseValue | src/aton_format/query/parser.py:226-245 | the result and the new position are those of ValueAt |
| QueryParsing.QueryParser.ParseOrderBy | src/aton_format/query/parser.py:247-259 | the result and the new position are those of OrderByAt |
| QueryParsing.QueryParser.ParseLimit | src/aton_format/query/parser.py:261-265 | the result and the new position are those of CountAt for LIMIT |
| QueryParsing.QueryParser.ParseOffset | src/aton_format/query/parser.py:267-271 | the result and the new position are those of CountAt for OFFSET |
| QueryParsing.QueryParser.ParseCount | src/aton_format/query/parser.py:261-271 | the shared body of _parse_limit and _parse_offset, as CountAt |
| QueryParsing.QueryParser.Parse | src/aton_format/query/parser.py:76-103 | parse(): the result is that of extracting, tokenizing and parsing the text |
| QueryParsing.QueryParser.ParseClauses | src/aton_format/query/parser.py:88-103 | the clauses of parse() from the first token, as QueryAt |
| QueryParsing.QueryParser.OptionalSelect | src/aton_format/query/parser.py:89 | as OptionalSelectAt |
| QueryParsing.QueryParser.OptionalWhere | src/aton_format/query/parser.py:90 | as OptionalWhereAt |
| QueryParsing.QueryParser.OptionalOrderBy | src/aton_format/query/parser.py:91 | as OptionalOrderByAt |
| QueryParsing.QueryParser.OptionalLimit | src/aton_format/query/parser.py:92 | as OptionalLimitAt |
| QueryParsing.QueryParser.OptionalOffset | src/aton_format/query/parser.py:93 | as OptionalOffsetAt |
| QueryParsingProperties.PlainQueryUnchanged | src/aton_format/query/parser.py:79-81 | a text without '@' is the query itself |
| QueryParsingProperties.WrappedQueryExtracted | src/aton_format/query/parser.py:79-81 | a query written as @query[q] is read back as q, whatever brackets q holds |
| QueryParsingProperties.EmptyQueryRejected | src/aton_format/query/parser.py:118-124 | an empty query fails with "Expected IDENTIFIER, got EOF" |
| QueryParsingProperties.TableComesFirst | src/aton_format/query/parser.py:88-124 | the table name comes first; any other first token is "Expected IDENTIFIER, got <kind>" |
| QueryParsingProperties.TableOnlyDefaults | src/aton_format/query/parser.py:88-103 | a bare table name gives every clause its default: no projection, no filter, no ordering, ascending, no limit, offset 0 |
| QueryParsingProperties.QueryOfStages | src/aton_format/query/parser.py:88-103 | parse() is assembled from its stages: the table, then each optional clause from where the previous one stopped |
| QueryParsingProperties.LimitEndsClauses | src/aton_format/query/parser.py:89-93 | clauses are read in the fixed order SELECT, WHERE, ORDER BY, LIMIT, OFFSET: after LIMIT only OFFSET is looked for, and what follows is left unread |
| QueryParsingProperties.NumberTextUnspaced | src/aton_format/query/parser.py:31 | the text of a NUMBER token has no surrounding whitespace |
| QueryParsingProperties.IntTextRejectsPoint | src/aton_format/query/parser.py:265-271 | int() of a text with a point fails |
| QueryParsingProperties.NumberTextConversions | src/aton_format/query/parser.py:233 | int() and float() of a NUMBER text read it as it is, a leading '-' being the sign |
| QueryParsingProperties.FractionParses | src/aton_format/query/parser.py:233 | digits '.' digits parses with float() |
| QueryParsingProperties.NumberTokenConverts | src/aton_format/query/parser.py:233 | every number text the lexer produces converts without ValueError: to an int without a point, to a float with one |
| QueryParsingProperties.FractionalCountRejected | src/aton_format/query/parser.py:261-271 | LIMIT and OFFSET take int() of the number, so one with a point raises ValueError |
| QueryParsingProperties.OrderDirection | src/aton_format/query/parser.py:247-259 | ORDER BY without a direction is ascending; ASC and DESC are read when present |
| QueryParsingProperties.FieldsRestSound | src/aton_format/query/parser.py:133-135 | what the ", field" loop reads is a comma-separated identifier list |
| QueryParsingProperties.FieldsRestComplete | src/aton_format/query/parser.py:133-135 | a comma-separated identifier list is read in full |
| QueryParsingProperties.FieldsRestStep | src/aton_format/query/parser.py:133-135 | ", f" moves the loop two tokens on with f added |
| QueryParsingProperties.SelectListSound | src/aton_format/query/parser.py:126-137 | SELECT f1, ..., fn gives exactly the identifiers of the list, in order, ending at the first token that is not a comma |
| QueryParsingProperties.SelectListComplete | src/aton_format/query/parser.py:126-137 | every comma-separated list after SELECT is read in full |
| QueryParsingProperties.AndAlwaysBuilt | src/aton_format/query/parser.py:165 | an AND node is built for every and-expression, even over one condition |
| QueryParsingProperties.Precedence | src/aton_format/query/parser.py:144-165 | AND binds tighter than OR: an expression is one AND node, or an OR node over two or more AND nodes, the OR node being there exactly when an OR follows the first |
| QueryParsingProperties.FieldConditionLeaf | src/aton_format/query/parser.py:183-196 | a field condition is a leaf: a special form after the field, or field, operator and value |
| QueryParsingProperties.WhereShaped | src/aton_format/query/parser.py:139-196 | every WHERE expression the parser builds has the shape of AND and OR nodes over conditions, NOT nodes and groups |
| QueryParsingProperties.GroupIsInner | src/aton_format/query/parser.py:170-174 | ( e ) is the node of e itself with no wrapper, ends after the closing parenthesis, and a missing one is "Expected RPAREN" |
| QueryParsingProperties.NotWrapsNext | src/aton_format/query/parser.py:177-180 | NOT applies to exactly the one condition that follows it, and an error in that condition is the error of the whole |
| QueryParsingProperties.AndRestKeeps | src/aton_format/query/parser.py:159-163 | the operands gathered so far stay the first operands of the AND |
| QueryParsingProperties.AndStartsWithCondition | src/aton_format/query/parser.py:159 | an and-expression is an AND node whose first operand is the first condition |
| QueryParsingProperties.NotBindsTighterThanAnd | src/aton_format/query/parser.py:159-180 | in NOT c AND d the NOT covers c alone and is the first operand of the AND |
| QueryParsingProperties.OffsetEndsQuery | src/aton_format/query/parser.py:93 | OFFSET is the last clause: after t OFFSET n nothing is read, so any tokens at all may follow |
| QueryParsingProperties.ShapedKnownOps | src/aton_format/query/parser.py:186-222 | a tree of the parser's shape over operator tokens of the seven spellings has known operators only |
| QueryParsingProperties.WhereOperatorsKnown | src/aton_format/query/parser.py:76-103 | from the text of a query to its WHERE tree, every condition's operator is IN, LIKE, BETWEEN or one of <=, >=, !=, <>, =, <, > |
| Streaming.NewStreamEncoder | src/aton_format/streaming/encoder.py:13-21 | a chunk size below 1 raises ValueError, and only then; otherwise the encoder keeps the chunk size and compression mode given |
| Streaming.FormatRecord | src/aton_format/streaming/encoder.py:124-132 | _format_record's row for a record under the schema and defaults, as StreamRow |
| Streaming.AppendRows | src/aton_format/streaming/encoder.py:89-101 | the row loop of both chunk encoders after the given head lines, as RowLinesFrom |
| Streaming.EncodeFullChunk | src/aton_format/streaming/encoder.py:81-92 | the first chunk's text: @schema, @defaults when there are defaults, a blank line, the header and every row |
| Streaming.EncodeRowsOnly | src/aton_format/streaming/encoder.py:94-102 | a later chunk's text: a blank line, the continuation header and the rows that are not empty |
| Streaming.InferStreamDefaults | src/aton_format/streaming/encoder.py:155-174 | _infer_defaults of the streaming encoder, as StreamDefaultsSpec |
| Streaming.ChunkResults | src/aton_format/streaming/encoder.py:44-79 | one chunk result per chunk_id in range(total_chunks), each as ChunkAt |
| Streaming.SelectTable | src/aton_format/streaming/encoder.py:27-41 | the table stream_encode picks, or its error, as StreamTable |
| Streaming.EncodeChunk | src/aton_format/streaming/encoder.py:54-79 | one round of the chunk loop, as ChunkAt |
| Streaming.EmitChunks | src/aton_format/streaming/encoder.py:53-79 | the chunks yielded in turn until one fails, as Collect over ChunkResults |
| Streaming.StreamEncode | src/aton_format/streaming/encoder.py:23-79 | the chunks yielded and the error raised, if any, as StreamSpec |
| StreamingProperties.ChunkCountIsCeiling | src/aton_format/streaming/encoder.py:44 | total_chunks is the least k with k * chunk_size >= n |
| StreamingProperties.ChunkBounds | src/aton_format/streaming/encoder.py:54-56 | every chunk holds between 1 and chunk_size records, each ends where the next starts and the last ends at the end of the table |
| StreamingProperties.ChunkSlice | src/aton_format/streaming/encoder.py:56 | chunk i is records[start:end] |
| StreamingProperties.GatheredPrefix | src/aton_format/streaming/encoder.py:53-56 | the first k chunks hold the first min(k * chunk_size, n) records |
| StreamingProperties.ChunksPartition | src/aton_format/streaming/encoder.py:53-56 | all the chunks together, in order, are the table |
| StreamingProperties.CollectMeaning | src/aton_format/streaming/encoder.py:53-79 | the loop yields the chunks in order, all of them unless one fails, and then stops with that error |
| StreamingProperties.StreamOfChunks | src/aton_format/streaming/encoder.py:53-79 | chunk k of a stream is the k-th chunk of the table |
| StreamingProperties.ChunkOpening | src/aton_format/streaming/encoder.py:81-102 | the first chunk's text opens with the @schema line, a later one's with the blank line before its header |
| StreamingProperties.ChunkNumbered | src/aton_format/streaming/encoder.py:63-79 | chunk i carries chunk_id i, total_chunks, the last flag exactly for i = total - 1, and the schema and defaults only for i = 0 |
| StreamingProperties.StreamCoversTable | src/aton_format/streaming/encoder.py:44-79 | a stream that ends without an error has ceil(n / chunk_size) chunks whose slices, one after another, are the table |
| StreamingProperties.StreamChunksNumbered | src/aton_format/streaming/encoder.py:63-79 | every chunk yielded is numbered in order with its progress, and only chunk 0 carries the schema, the defaults and the @schema line |
| StreamingProperties.StreamOneHeader | src/aton_format/streaming/encoder.py:63-102 | in a stream that ends cleanly exactly one chunk, the first, opens with the @schema line, and exactly one, the last, is marked last |
| StreamingProperties.StreamStopsAtFailingChunk | src/aton_format/streaming/encoder.py:53-79 | a stream stopped by an error stopped at the chunk after those yielded, which failed to encode |
| StreamingProperties.StreamTableChecks | src/aton_format/streaming/encoder.py:27-41 | the table checks in order: no tables, several tables and no name, a missing table, a table that is not a list |
| StreamingProperties.StreamTableFailure | src/aton_format/streaming/encoder.py:27-41 | a failed table check ends the stream before its first chunk |
| StreamingProperties.StreamFirstRecord | src/aton_format/streaming/encoder.py:43-51 | a table with no records yields nothing and ends cleanly; one whose first record is not a dict raises before any chunk |
| StreamingProperties.KeepingEveryRow | src/aton_format/streaming/encoder.py:89-91 | the full chunk indents every row |
| StreamingProperties.DroppingEmptyRows | src/aton_format/streaming/encoder.py:98-101 | a later chunk has a line iff it indents a row that is not empty |
| StreamingProperties.RowLinesSucceed | src/aton_format/streaming/encoder.py:89-101 | the row loop succeeds iff every row can be formatted |
| StreamingProperties.RowLinesValue | src/aton_format/streaming/encoder.py:88-101 | after the head lines the row loop adds the indented rows it keeps |
| StreamingProperties.ChunkText | src/aton_format/streaming/encoder.py:81-102 | the text of chunk i: the first holds the head lines and every row, a later one the continuation header and only its non-empty rows |
| StreamingProperties.QuotedNotEmpty | src/aton_format/streaming/encoder.py:134-145 | _format_value never gives an empty literal |
| StreamingProperties.NoFieldsIffElided | src/aton_format/streaming/encoder.py:124-132 | no column is written iff every column is elided |
| StreamingProperties.EmptyRowIffAllDefaults | src/aton_format/streaming/encoder.py:100-132 | a row is empty, and so dropped in a later chunk, iff the schema is empty or every column equals its default |
| StreamingProperties.FirstFieldQuoted | src/aton_format/streaming/encoder.py:128-131 | every written field is a _format_value literal, so none is empty |
| StreamingProperties.StringsReadBack | src/aton_format/streaming/encoder.py:140-141 | _format_value quotes every string, a '#' one included, so the decoder reads each back as the same string |
| StreamingProperties.InColumn | src/aton_format/streaming/encoder.py:160-164 | a value is in the column of k iff some sampled record has it under k |
| StreamingProperties.UnhashableColumn | src/aton_format/streaming/encoder.py:166-171 | a column holds an unhashable value iff a sampled record holds one |
| StreamingProperties.StreamDefaultsVersusCore | src/aton_format/streaming/encoder.py:155-174 | the same defaults as the core encoder when both succeed; TypeError exactly when a sampled record holds a list or a dict, where the core encoder, which skips such a column, succeeds |
| RoundTrip.SortByKeyGet | src/aton_format/core/encoder.py:143 | sorted(defaults.items()) holds the same entries: every key reads the same |
| RoundTrip.LinesOfParts | src/aton_format/core/decoder.py:17 | parts without a newline and without trailing whitespace, joined by newlines, split back into the same lines |
| RoundTrip.SchemaItemRead | src/aton_format/core/decoder.py:76-83 | one schema item key:tag is read as the column (key, tag) |
| RoundTrip.SchemaLineRoundTrip | src/aton_format/core/decoder.py:76-83 | the @schema line the encoder writes reads back as the schema written, for keys without special characters |
| RoundTrip.SubstituteFresh | src/aton_format/core/decoder.py:115 | a decoder with an empty dictionary substitutes nothing |
| RoundTrip.DefaultValueRead | src/aton_format/core/decoder.py:109-122 | a fresh decoder reads a default's literal back as the value |
| RoundTrip.DefaultsLineRoundTrip | src/aton_format/core/decoder.py:85-95 | the @defaults line read by a fresh decoder gives the defaults in key order, as sorted() wrote them |
| RoundTrip.DefaultsLineGet | src/aton_format/core/decoder.py:85-95 | every key of the @defaults line reads back as in the defaults written |
| RoundTrip.RowFieldsBack | src/aton_format/core/decoder.py:132-160 | _split_smart splits a row back into the literals the encoder joined with ", " |
| RoundTrip.RowValueRead | src/aton_format/core/decoder.py:109-122 | a fresh decoder reads a row literal back as the value written |
| RoundTrip.RowValuesBack | src/aton_format/core/decoder.py:101-106 | each written field parses back as the record's value for its column |
| RoundTrip.RowWritten | src/aton_format/core/encoder.py:152-173 | for a record whose elided columns form a suffix of the schema, the row holds the literals of the columns before it |
| RoundTrip.RecordWritten | src/aton_format/core/decoder.py:97-107 | a written column reads back as the record's value |
| RoundTrip.RecordDefaulted | src/aton_format/core/decoder.py:99 | a column left out reads back as the decoded default, which equals the record's value under Python == |
| RoundTrip.MiddleElisionShifts | src/aton_format/core/decoder.py:101-106 | a column left out in the middle of the schema shifts the values after it: with a elided and b written, the decoder puts b's value under a |
| RoundTrip.OtherMetaIgnored | src/aton_format/core/decoder.py:36-37 | a stripped '@' line other than @dict, @schema and @defaults is stepped over |
| RoundTrip.HeadScan | src/aton_format/core/decoder.py:30-37 | a fresh decoder's scan over a table's head lines ends with the schema and the defaults written |
| RoundTrip.TailScan | src/aton_format/core/decoder.py:26-58 | the blank line, the header and the rows that follow store the table under its name |
| RoundTrip.ReadsOneTable | src/aton_format/core/decoder.py:23-62 | a scan that reads the rest of the text as one new table yields just that table |
| RoundTrip.TableScan | src/aton_format/core/decoder.py:14-64 | a fresh decoder reads the lines of one table as that table: its rows parsed under the schema and the defaults written |
| DocumentRoundTrip.RowsOfRecords | src/aton_format/core/encoder.py:90-92 | records that are all dicts, under a schema with a column, are written one indented row each |
| DocumentRoundTrip.TablePartsOf | src/aton_format/core/encoder.py:68-92 | the parts of a table of dicts: its head, the header after a blank line, and its rows |
| DocumentRoundTrip.LayoutOf | src/aton_format/core/encoder.py:63-94 | a document of one table is laid out as that table's parts joined by newlines |
| DocumentRoundTrip.LinesAreTable | src/aton_format/core/decoder.py:17 | the text of a table's parts splits into the table's lines |
| DocumentRoundTrip.SchemaOfSafe | src/aton_format/core/encoder.py:175-181 | the first record's keys become the schema's names, each once |
| DocumentRoundTrip.ChosenDistinct | src/aton_format/core/encoder.py:183-207 | the defaults the encoder picks name each column at most once |
| DocumentRoundTrip.RowTextOf | src/aton_format/core/decoder.py:47-57 | a row of literals is read back as one data line |
| DocumentRoundTrip.RecordBack | src/aton_format/core/decoder.py:97-107 | column j of record i read back from its row: the record's value where written, the default, equal to the record's value, where elided |
| DocumentRoundTrip.RecordsBack | src/aton_format/core/decoder.py:46-57 | the rows of the records parse back into them, column by column |
| DocumentRoundTrip.TableText | src/aton_format/core/encoder.py:39-97 | the text encode writes for a document of one table of dicts is the table's head, header and rows, one per line |
| DocumentRoundTrip.TableDecodes | src/aton_format/core/decoder.py:14-64 | a fresh decoder reads that text as the one table |
| DocumentRoundTrip.OneTableRoundTrip | src/aton_format/core/decoder.py:14-64 | decode(encode({name: records})) without compression gives one table of that name holding the records column by column, when the name, keys and defaults read back and the rows' elided columns form suffixes |
| DictionaryRoundTrip.DictItemRead | src/aton_format/core/decoder.py:69-73 | one item key:"value" of a @dict line adds the entry (key, value) |
| DictionaryRoundTrip.DictFromItems | src/aton_format/core/decoder.py:68-74 | the items of a @dict line, keys distinct and new, read back as the entries in order |
| DictionaryRoundTrip.DictionaryLineRoundTrip | src/aton_format/core/decoder.py:66-74 | the @dict line that _format_dictionary writes reads back as the dictionary in key order, for plain keys and values with no line break and no final '"' or '\\' |
| DictionaryRoundTrip.DictionaryLineGet | src/aton_format/core/decoder.py:66-74 | every reference of that line reads back as the string it stands for |
| DecoderReferences.ResolveGet | src/aton_format/core/decoder.py:104-105 | a key of the resolved record holds its value in the record, resolved; the same keys are present |
| DecoderReferences.ResolvePut | src/aton_format/core/decoder.py:106 | storing a value and then resolving is resolving and then storing the resolved value |
| DecoderReferences.FieldResolved | src/aton_format/core/decoder.py:103-105 | a field read under a dictionary is the field read without one, its reference resolved |
| DecoderReferences.DefaultsLineResolved | src/aton_format/core/decoder.py:85-95 | a @defaults line read under a dictionary gives the defaults read without one, each resolved, or the same error |
| DecoderReferences.RecordOfResolved | src/aton_format/core/decoder.py:97-107 | a row read under a dictionary, with defaults read under it, is the record read without one, resolved |
| DecoderReferences.RecordsOfResolved | src/aton_format/core/decoder.py:46-57 | the rows of a table read under a dictionary are the records read without one, each resolved |
| DecoderReferences.StepResolved | src/aton_format/core/decoder.py:23-60 | one step of the scan over a line that is not @dict gives, under a dictionary, the step without one with the tables and defaults resolved, or the same error |
| DecoderReferences.DecodeResolved | src/aton_format/core/decoder.py:12-64 | a decoder instance that holds a dictionary reads text without a @dict line as a fresh one does, every reference resolved through the dictionary, which it keeps |
| CompressedRoundTrip.DictionarySafe | src/aton_format/compression/algorithms.py:44-51 | for a document whose strings the @dict line can carry, the dictionary has distinct '#' references as keys and entries the line carries |
| CompressedRoundTrip.DictionaryEntries | src/aton_format/compression/algorithms.py:45-51 | entry j of the dictionary is the reference #(next+j) for a string of the document |
| CompressedRoundTrip.WordNotKey | src/aton_format/core/decoder.py:124-130 | a word, the only string a list item can be, is never a reference |
| CompressedRoundTrip.ResolveIsReplace | src/aton_format/core/decoder.py:103-105 | a value written in a row, resolved through the dictionary in key order, is the value rewritten through the dictionary |
| CompressedRoundTrip.PyEqReplace | src/aton_format/compression/algorithms.py:94-103 | a value equal under Python == to a hashable default stays equal when both are rewritten |
| CompressedRoundTrip.ReplaceDocument | src/aton_format/compression/algorithms.py:98-101 | _replace_strings on {name: records} gives {name: the rewritten records} |
| CompressedRoundTrip.ReplaceRecord | src/aton_format/compression/algorithms.py:98-99 | the rewritten record has the same keys and type tags, each column holding the column's value rewritten |
| CompressedRoundTrip.ReplaceTag | src/aton_format/compression/algorithms.py:94-103 | the rewrite keeps every value's type tag |
| CompressedRoundTrip.ReplaceObj | src/aton_format/compression/algorithms.py:94-103 | only a dict rewrites to a dict |
| CompressedRoundTrip.CompressedSchema | src/aton_format/core/encoder.py:68-69 | the compressed table has the schema of the table |
| CompressedRoundTrip.DictionaryLineText | src/aton_format/core/encoder.py:124-130 | the @dict line holds no line break and ends in ']' |
| CompressedRoundTrip.DictionaryLineMeta | src/aton_format/core/encoder.py:124-130 | the @dict line is left alone by strip() and starts with @dict |
| CompressedRoundTrip.CompressedLayout | src/aton_format/core/encoder.py:57-94 | with a dictionary, a document of one table is written as the @dict line, a blank line and the table's parts |
| CompressedRoundTrip.CompressedTextLines | src/aton_format/core/decoder.py:17 | that text splits into the @dict line, the blank line, the head, a blank line, the header and the indented rows |
| CompressedRoundTrip.DictionaryStep | src/aton_format/core/decoder.py:30-31 | the @dict line sets the instance's dictionary to the entries in key order |
| CompressedRoundTrip.ResolvedDefaultsStep | src/aton_format/core/decoder.py:34-35 | the @defaults line, read by a decoder holding a dictionary, sets the defaults with their references resolved |
| CompressedRoundTrip.CompressedHeadScan | src/aton_format/core/decoder.py:23-37 | the scan over the @dict line, the blank line and the head ends holding the dictionary, the schema and the resolved defaults |
| CompressedRoundTrip.CompressedScan | src/aton_format/core/decoder.py:14-64 | a fresh decoder reads the compressed lines as the one table, its rows parsed under the schema, the resolved defaults and the dictionary |
| CompressedRoundTrip.DictionaryDecodes | src/aton_format/core/decoder.py:14-64 | the text of a compressed table with a dictionary reads back as its rows parsed without a dictionary and then resolved, the decoder keeping the dictionary in key order |
| CompressedRoundTrip.ResolveNothing | src/aton_format/core/decoder.py:104 | resolving through an empty dictionary changes no record |
| CompressedRoundTrip.CompressedDecodes | src/aton_format/core/decoder.py:14-64 | the text of a compressed table, with a dictionary or none, reads back as its rows parsed without a dictionary and then resolved, and the decoder keeps the dictionary in key order |
| CompressedRoundTrip.ColumnThrough | src/aton_format/core/decoder.py:97-107 | one column of a decoded record is the original record's value where written, and where left out the resolved default, equal to it under Python == |
| CompressedRoundTrip.TableThrough | src/aton_format/core/decoder.py:46-57 | the compressed rows, read and resolved, give back every original record column by column |
| CompressedRoundTrip.BalancedOutput | src/aton_format/compression/engine.py:44-53 | BALANCED on {name: records} gives the rewritten table and the dictionary under "dictionary" |
| CompressedRoundTrip.CompressedBack | src/aton_format/compression/algorithms.py:35-60 | the dictionary maps each rewritten record back to the record, when no string starts with '#' |
| CompressedRoundTrip.RewrittenRoundTrip | src/aton_format/core/encoder.py:39-97 | a table rewritten through the reverse of a dictionary that maps it back is written, and read by a fresh decoder as the dictionary in key order and the table's own values |
| CompressedRoundTrip.BalancedRoundTrip | src/aton_format/core/encoder.py:39-97 | decode(encode({name: records})) in BALANCED mode gives the dictionary in key order and one table of that name holding each record's value, or a default equal to it, column by column |
| CompressedRoundTrip.RunWritesBalanced | src/aton_format/compression/engine.py:21-80 | BALANCED, ULTRA and ADAPTIVE under 10000 characters give BALANCED's compressed data and dictionary |
| CompressedRoundTrip.EncodeCompressedRoundTrip | src/aton_format/core/encoder.py:39-97 | encode(data, compress=True) in those modes, validation off or passing, then decode on a fresh decoder gives the table back as above |
| QueryEncoding.Items | src/aton_format/core/encoder.py:104 | the query result as the list of dicts given to encode, one per record, in order |
| QueryEncoding.DocumentOfOne | src/aton_format/core/encoder.py:104 | {table: records} is a valid one-table document |
| QueryEncoding.ParseErrorPropagated | src/aton_format/core/encoder.py:99-108 | a query that does not parse is reported as a query encoding failure and the compression state is left alone |
| QueryEncoding.ExecuteErrorPropagated | src/aton_format/core/encoder.py:99-108 | a query that fails on the data is reported as a query encoding failure and nothing is encoded |
| QueryEncoding.MissingTableReported | src/aton_format/core/encoder.py:99-108 | a query naming a table the data lacks fails with table-not-found |
| QueryEncoding.FastQueryText | src/aton_format/core/encoder.py:99-108 | without compression the answer is the @query[...] line, a blank line and the layout of {table: selected records} |
| QueryEncoding.SelectedRecordsDecode | src/aton_format/core/encoder.py:99-108 | and a fresh decoder reads the text after that line back as one table of that name holding the selected records |

## Where parts of the code disagree

The model follows each part of the code as written, including where two parts treat the same thing differently:
- Default detection. The core encoder's `_infer_defaults` wraps `Counter` in `try`/`except TypeError` and skips a column holding a list or dict (src/aton_format/core/encoder.py:196-206). The stream encoder's `_infer_defaults` calls `Counter` with no guard, so the same column raises `TypeError` there (src/aton_format/streaming/encoder.py:168-173; `StreamingProperties.StreamDefaultsVersusCore`).
- Strings that begin with `#`. `compress` never gives them a reference (src/aton_format/compression/algorithms.py:46-48). `estimate_savings` has no such test and counts them among the savings (src/aton_format/compression/algorithms.py:70-74; `CompressionProperties.EstimateIgnoresHashExclusion`).
- Elided columns. `_format_record` leaves out every column whose value equals its default, wherever it is in the schema (src/aton_format/core/encoder.py:155-158). `_parse_record` gives the row's values to the schema's columns by position (src/aton_format/core/decoder.py:97-107). The two agree only when the columns left out are the last ones (`RoundTrip.MiddleElisionShifts`), and a row that leaves out every column is lost as a blank line (`DecoderProperties.EmptyRowLost`).
- References inside lists. `_replace_strings` replaces qualifying strings inside lists too, but the decoder resolves a `#k` reference only where it is a whole field (src/aton_format/core/decoder.py:103-105) and `_parse_array` never resolves one. A list item that was replaced comes back as its reference.
- The `FROM` token. The tokenizer has a `FROM` keyword (src/aton_format/query/parser.py:17), but no clause of the parser reads it. After the table name or after a complete clause, `parse` only tests for the next clause's keyword (src/aton_format/query/parser.py:88-93), so a `FROM` there ends the query and the tokens after it are ignored (`t FROM x`, `t SELECT a FROM x`). Where an identifier is due, `_consume` raises "Expected IDENTIFIER, got FROM" (src/aton_format/query/parser.py:114-124): `FROM t`, `t WHERE FROM = 1` and `t SELECT a, FROM` all fail.

## Left out

- CompressionEngine.Engine.Compress: the wall-clock `encoding_time_ms` entry that `compress` adds to the metadata is not modelled, because it is a clock reading.
- Compression.DictionaryCompression.EstimateSavings: the estimate is the exact ratio saved/total, where Python computes the float `saved_chars / total_chars`. The ADAPTIVE choice then compares exact ratios. Two estimates that round to the same double but differ exactly are told apart by the model, where Python's `max` would take the first.
- Compression.SavingsRatio: an exact ratio stands for the float division, as above.
- CompressionEngine.Engine.CompressAdaptive: the `json.dumps` length of the data is a parameter, `size`. `DeltaCompression.estimate_savings` and the `_find_numeric_sequences` scan behind it are float arithmetic over the numeric fields. Their result is also a parameter, `deltaEstimate`.
- Text.DecimalToString: floats are exact decimals (mantissa times a power of ten). Binary rounding of IEEE doubles, `inf` and `nan` are not modelled.
- Text.ParseDecimal: underscore digit separators, the `inf`/`nan`/`infinity` spellings and the non-ASCII decimal digits (such as `٣`) that `float()` accepts are not modelled. Such texts read as failures, that is as strings, where Python would read a float.
- Text.ParseInt: underscore digit separators and the non-ASCII decimal digits that `int()` accepts are not modelled (`Text.IsDigit` is `0`-`9`). A field such as `٣` reads as the string `"٣"`, where Python reads `3`.
- Text.Strip: whitespace is ` \t\n\r\v\f`. Python's `strip()` also removes the ASCII separators `\x1c`-`\x1f` and the Unicode whitespace characters (such as `\x85` and `\xa0`).
- QueryTokenizer.Tokenize: `\s`, `\d`, `\w`, `\b` and `IGNORECASE` are ASCII-only. Python's `re` treats them as Unicode classes and uses Unicode case folding.
- QueryAst.CompilePattern: in a LIKE pattern only `%`, `_` and `.` are special (`.*`, `.` and `.`). Every other regular-expression metacharacter (`+ * ? [ ] ( ) | ^ $ \ { }`) is taken as a literal character. Python would give it its regex meaning, or raise `re.error` when it is unbalanced. Case folding is ASCII-only.
- Values.StrRepr: characters above U+00FF that Python's `repr` shows as `\u`/`\U` escapes (non-printable ones) are written as themselves. The ASCII and Latin-1 controls are escaped as Python does.
- QueryEngine.OrderBy: sorting fails with `TypeError` when some pair of sort keys is incomparable. Python's `sorted` compares only the pairs its algorithm meets, so it may succeed on such a list.
- QueryEncoding.SelectedRecordsDecode: the decoding is stated for the uncompressed (FAST) layout and for the text after the `@query[...]` line and the blank line.
- RoundTrip.TableScan: the round trip is stated for one table whose name, keys and default values read back and whose rows elide only suffixes of the schema. Other documents are covered by the as-written lemmas above.
- DocumentRoundTrip.OneTableRoundTrip: covers the uncompressed layout (compress=False, FAST, and the ADAPTIVE runs that choose the delta algorithm, whose metadata holds no dictionary). The compressed layout is covered by `CompressedRoundTrip.EncodeCompressedRoundTrip` for BALANCED, ULTRA and ADAPTIVE under 10000 characters. ADAPTIVE from 10000 characters on with the dictionary algorithm chosen is not covered by a round-trip lemma.
- CompressedRoundTrip.BalancedRoundTrip: stated for one table none of whose strings starts with '#', whose strings hold no line break and end in neither '"' nor '\\', and whose compressed rows leave out only suffixes of the schema. A string starting with '#' that equals a reference of the dictionary is resolved to another string, and references inside lists are not resolved (see "Where parts of the code disagree").
- Streaming.StreamEncode: the generator's laziness is not modelled. The stream is the sequence of chunks yielded before the first error, together with that error. `progress` is an exact ratio, not a float.
