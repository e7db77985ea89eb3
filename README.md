# IndexedTextSearch: a Dafny model of the index, the indexer's tokenizer and the query evaluator

IndexedTextSearch builds an inverted index over text files and answers boolean queries against it.

- **Indexing.** Each line of a file is cut into words: maximal runs of characters that belong to the alphabet of some supported language (Russian, English). Every distinct word of the line is lower-cased. It is reduced to its normal forms by the languages' morphological analysers. The document and position are then recorded under each normal form.
- **Persistence.** The index is written out and read back as a table of distinct documents followed by, per normal form, its documents' table indexes and position lists.
- **Querying.** A query uses words, brackets and the operators ` AND ` and ` OR `. It is first validated: every character is checked, and a table of bracket partners is built. It is then evaluated:
  - a range split at its top-level ` AND `s yields the intersection of the parts;
  - failing that, one split at its top-level ` OR `s yields their union;
  - failing that, a range that passes the bracket test at line 91 of `Searcher.java` is evaluated without its first and last characters (as written, that test compares positions with character codes; see "## Findings");
  - otherwise a single word is looked up.

The project has these modules:

| file | module | models |
|---|---|---|
| `common.dfy` | `Common` | `Option`, `Result` (the Java exceptions become `Err`), duplicate-free sequences |
| `languages.dfy` | `Languages` | `Language.java`: alphabet ranges, the constructor's length check, `isCorrectLetter`, `getNormalForms` |
| `index.dfy` | `InvertedIndex` | `Index.java`: `put`, `get`, `isCorrectLetter`, the normal-form cache (class `Index`) |
| `codec.dfy` | `IndexCodec` | `Index.writeObject` / `Index.readObject` over an abstract stream of items |
| `indexer.dfy` | `Indexer` | `Indexer.getWords` and the per-line de-duplication before `put` |
| `brackets.dfy` | `QueryBrackets` | the validation loop of `Searcher.find(String)` and its pair table |
| `searcher.dfy` | `Searcher` | `Searcher.find(String)`, `find(pairBracket, str, from, to)`, `findAnd`, `findOr`, `isContainSubstringAt` |

How the source is modelled:

- **Evaluator specification.** The evaluator is specified by the recursive function `Searcher.Eval`, and the methods (`Find`, `FindRange`, `FindJunction`, …) are proved equal to it.
- **Bracket-test rules.** `Eval` takes a `StripRule`:
  - `AsWritten` reproduces line 91 of `Searcher.java` as it stands;
  - `ByChar` is the test evidently intended (see "## Findings").
- **Which rule the methods use.** The evaluating methods take the rule as a parameter. `Find(AsWritten, …)` computes the source's test and behaves as the code is written; `Find(ByChar, …)` is the corrected program.
- **Stateful parts.** These are imperative:
  - the index is a class whose `Put`/`Get` update its maps;
  - the validation loop fills an `array` pair table;
  - the scanning and merging loops are `while`/`for` loops with invariants.
- **Pure parts.** The language functions and the codec's decoder are pure functions.

## Model

| member | source | states |
|---|---|---|
| `Languages.NewLanguage` | src/com/polarnick/indexedSearch/Language.java:25-32 | construction succeeds iff `mins` and `maxs` have the same length, and then keeps exactly those tables and that analyser |
| `Languages.IsCorrectLetter` | src/com/polarnick/indexedSearch/Language.java:34-41 | a character is a letter of a language iff some range `i` has `mins[i] <= c <= maxs[i]` |
| `Languages.AcceptedFrom` | src/com/polarnick/indexedSearch/Language.java:35-40 | the range loop from index `i` on answers true iff one of the remaining ranges contains the character |
| `Languages.GetNormalForms` | src/com/polarnick/indexedSearch/Language.java:43-49 | the analyser's normal forms, and the empty list when the analyser refuses a character |
| `Languages.IsLetter` | src/com/polarnick/indexedSearch/Indexer.java:167-172 | a character is a letter iff at least one of the languages accepts it |
| `Languages.EnglishAlphabet` | src/com/polarnick/indexedSearch/Language.java:19 | English accepts exactly 'a'..'z' and 'A'..'Z' |
| `Languages.RussianAlphabet` | src/com/polarnick/indexedSearch/Language.java:18 | Russian accepts exactly 'а'..'я' and 'А'..'Я' |
| `Languages.YoIsNotRussian` | src/com/polarnick/indexedSearch/Language.java:18 | 'ё' and 'Ё' fall outside the Russian ranges |
| `Languages.AlphabetsDisjoint` | src/com/polarnick/indexedSearch/Language.java:18-19 | no character is a letter of both languages |
| `Languages.ToLower` | src/com/polarnick/indexedSearch/Index.java:36 | upper-case letters of both alphabets map to their lower-case partners (code + 32), every other character is kept |
| `InvertedIndex.NormForms` | src/com/polarnick/indexedSearch/Index.java:110-113 | a form is among a token's normal forms iff some language gives it |
| `InvertedIndex.Appended` | src/com/polarnick/indexedSearch/Index.java:39-56 | the store after `put`: the position appended to the document's list under each of the forms |
| `InvertedIndex.IsMerge` | src/com/polarnick/indexedSearch/Index.java:70-77 | what `get` returns: exactly the documents stored under one of the forms, each with a list stored under one of them |
| `InvertedIndex.AppendedExtends` | src/com/polarnick/indexedSearch/Index.java:39-56 | after a put, each normal form's list for the document is its old list (or the empty one) with the position appended |
| `InvertedIndex.AppendedKeepsOthers` | src/com/polarnick/indexedSearch/Index.java:35-58 | a put leaves every other (form, document) list as it was |
| `InvertedIndex.AppendedNoEmptyBuckets` | src/com/polarnick/indexedSearch/Index.java:40-56 | buckets and lists are only created on the path that appends to them, so none is empty |
| `InvertedIndex.AppendedStep` | src/com/polarnick/indexedSearch/Index.java:40-56 | one more form done is one bucket updated with the position appended |
| `InvertedIndex.MergeStep` | src/com/polarnick/indexedSearch/Index.java:72-75 | `putAll` of one more form's documents keeps the result a merge of the forms done |
| `InvertedIndex.AppendToAll` | src/com/polarnick/indexedSearch/Index.java:39-57 | the loop over the normal forms yields exactly the store with the position appended under every form |
| `InvertedIndex.MergeAll` | src/com/polarnick/indexedSearch/Index.java:70-77 | the loop of `get` yields exactly the documents of the forms, each with a list stored under one of them |
| `InvertedIndex.Index.constructor` | src/com/polarnick/indexedSearch/Index.java:20-24 | a new index is empty, keeps its languages, and has an empty cache |
| `InvertedIndex.Index.Put` | src/com/polarnick/indexedSearch/Index.java:35-58 | the position is appended under every normal form of the lower-cased token, the cache then holds that token, and the index stays valid |
| `InvertedIndex.Index.Get` | src/com/polarnick/indexedSearch/Index.java:60-78 | a word with a non-letter gives the empty map and leaves the cache alone; otherwise the result merges the postings of all normal forms of the lower-cased word |
| `InvertedIndex.Index.IsCorrectLetter` | src/com/polarnick/indexedSearch/Index.java:80-87 | true iff some configured language accepts the character |
| `InvertedIndex.Index.GetAllNormForms` | src/com/polarnick/indexedSearch/Index.java:94-118 | the result is always the token's normal forms; a hit leaves the cache alone, a miss records exactly that set |
| `IndexCodec.ReadObject` | src/com/polarnick/indexedSearch/Index.java:148-182 | the reading loop with counters returns what `Decode` defines, errors included (short stream, an item that is not an int, a list or a string where the read needs one, negative capacity, document index outside the table); a list of the other element kind is refused (see "## Left out") |
| `IndexCodec.Decode` | src/com/polarnick/indexedSearch/Index.java:148-182 | what `readObject` rebuilds: the document table, a non-negative form count, then that many forms, or the first error met; an integer list in place of the document table is refused (see "## Left out") |
| `IndexCodec.ReadForms` | src/com/polarnick/indexedSearch/Index.java:161-180 | reading `count` forms in turn, each one's map stored under its text |
| `IndexCodec.ReadPostings` | src/com/polarnick/indexedSearch/Index.java:170-172 | reading `count` (table index, position list) records, refusing an index outside the table; a string list in place of a position list is refused (see "## Left out") |
| `IndexCodec.Encode` | src/com/polarnick/indexedSearch/Index.java:199-215 | what `writeObject` writes: the table, the form count, then per form its text, its document count and its records |
| `IndexCodec.EncodePostings` | src/com/polarnick/indexedSearch/Index.java:212-215 | two items per document visited |
| `IndexCodec.EncodePostingsAt` | src/com/polarnick/indexedSearch/Index.java:212-215 | the `k`-th document's record is its table index (item `2k`) followed by its position list (item `2k+1`) |
| `IndexCodec.ReadPostingsOfEncoding` | src/com/polarnick/indexedSearch/Index.java:170-172 | reading the records of a list of documents adds each document with its positions |
| `IndexCodec.ReadPostingsOfForm` | src/com/polarnick/indexedSearch/Index.java:164-173 | reading the records of a whole form gives its document map back |
| `IndexCodec.ReadFormsOfEncoding` | src/com/polarnick/indexedSearch/Index.java:162-180 | reading an encoded sequence of forms adds the document map of each |
| `IndexCodec.FillFacts` | src/com/polarnick/indexedSearch/Index.java:173 | filling adds exactly the layout's forms, each with its map, and keeps the rest |
| `IndexCodec.FillLayout` | src/com/polarnick/indexedSearch/Index.java:161-173 | reading along a layout of the whole map rebuilds the map |
| `IndexCodec.DecodeEncode` | src/com/polarnick/indexedSearch/Index.java:148-224 | decoding what is written gives the same map back, whatever order the hash maps are walked in |
| `IndexCodec.BuildFileTable` | src/com/polarnick/indexedSearch/Index.java:187-197 | the forms and their documents are walked once each, and the table is exactly the walk's documents in the order they are first met, each indexed by its position |
| `IndexCodec.NumberDocuments` | src/com/polarnick/indexedSearch/Index.java:191-196 | the inner loop walks each document of one form once and keeps the table the first occurrences of the whole walk so far |
| `IndexCodec.NumberOne` | src/com/polarnick/indexedSearch/Index.java:192-195 | a document already numbered leaves the table alone; a new one is appended with the next free index |
| `IndexCodec.FirstSeen` | src/com/polarnick/indexedSearch/Index.java:190-197 | the documents of a walk in the order of their first occurrences |
| `IndexCodec.FirstSeenFacts` | src/com/polarnick/indexedSearch/Index.java:192-195 | the first occurrences of a walk are duplicate-free and list exactly the documents of the walk |
| `IndexCodec.FirstSeenOfDistinct` | src/com/polarnick/indexedSearch/Index.java:192-195 | a walk without repetitions is numbered in walk order |
| `IndexCodec.FlattenDocs` | src/com/polarnick/indexedSearch/Index.java:190-191 | a walk over all forms and all their documents meets exactly the documents of the index |
| `IndexCodec.WritePostings` | src/com/polarnick/indexedSearch/Index.java:210-215 | the inner loop visits each document of the form once and writes exactly its records |
| `IndexCodec.WriteObject` | src/com/polarnick/indexedSearch/Index.java:184-224 | what is written decodes back to the index's map, and its table is duplicate-free and lists exactly the documents |
| `Indexer.GetWords` | src/com/polarnick/indexedSearch/Indexer.java:162-186 | the loop yields the words of the line |
| `Indexer.Words` | src/com/polarnick/indexedSearch/Indexer.java:162-186 | the words of a line: the finished words, plus the current one when the line ends in a letter |
| `Indexer.Scan` | src/com/polarnick/indexedSearch/Indexer.java:165-181 | the loop state of `getWords` after a prefix: the finished words and the word being read |
| `Indexer.ScanShape` | src/com/polarnick/indexedSearch/Indexer.java:165-181 | finished words are non-empty runs of letters, and the current word is non-empty iff the line so far ends in a letter |
| `Indexer.ScanLetters` | src/com/polarnick/indexedSearch/Indexer.java:165-181 | the finished words and the current one spell the letters read so far |
| `Indexer.ScanRuns` | src/com/polarnick/indexedSearch/Indexer.java:165-181 | every run of letters is a finished word or the current one |
| `Indexer.WordsAreLetterRuns` | src/com/polarnick/indexedSearch/Indexer.java:162-186 | every word is non-empty and consists of letters |
| `Indexer.WordsSpellLetters` | src/com/polarnick/indexedSearch/Indexer.java:162-186 | joining the words gives the line's letters, in order: nothing is lost or invented |
| `Indexer.WordsCountRuns` | src/com/polarnick/indexedSearch/Indexer.java:162-186 | there are exactly as many words as maximal runs of letters |
| `Indexer.NoLettersNoWords` | src/com/polarnick/indexedSearch/Indexer.java:182-185 | a line without letters has no words |
| `Indexer.IndexLine` | src/com/polarnick/indexedSearch/Indexer.java:131-137 | each distinct word of the line is put exactly once; the store is the result of those puts and the cache gains exactly the lower-cased words with their normal forms |
| `Indexer.CachedFormsSnoc` | src/com/polarnick/indexedSearch/Index.java:114-115 | one more put records exactly one more cache entry, for its lower-cased token |
| `QueryBrackets.Scan` | src/com/polarnick/indexedSearch/Searcher.java:57-78 | the table has one entry per character and the pending '(' lie before the scanned prefix |
| `QueryBrackets.Step` | src/com/polarnick/indexedSearch/Searcher.java:61-77 | one character keeps the table's size and the pending '(' before the next position |
| `QueryBrackets.Validate` | src/com/polarnick/indexedSearch/Searcher.java:56-79 | the validation of the whole query: its pair table and pending '(', or the first error |
| `QueryBrackets.ScanAccepts` | src/com/polarnick/indexedSearch/Searcher.java:60-78 | validation accepts a prefix iff no prefix of it closes more brackets than it opens and every character is a letter, an operator character or a bracket; the pending '(' number the depth |
| `QueryBrackets.ScanRefuses` | src/com/polarnick/indexedSearch/Searcher.java:72-77 | a refused character is reported with its own 1-based position |
| `QueryBrackets.ScanStops` | src/com/polarnick/indexedSearch/Searcher.java:65-77 | the first error is the one reported: later characters do not change it |
| `QueryBrackets.StepPush` | src/com/polarnick/indexedSearch/Searcher.java:62-63 | pushing a '(' keeps the table invariant |
| `QueryBrackets.StepPushPending` | src/com/polarnick/indexedSearch/Searcher.java:63 | the pushed '(' is pending, unset and above every other pending one |
| `QueryBrackets.StepPushMatched` | src/com/polarnick/indexedSearch/Searcher.java:63 | a push leaves all matched pairs matched and nested |
| `QueryBrackets.StepPushClosers` | src/com/polarnick/indexedSearch/Searcher.java:62-63 | a '(' leaves every earlier ')' matched |
| `QueryBrackets.StepPushOpeners` | src/com/polarnick/indexedSearch/Searcher.java:62-63 | a push leaves every earlier non-pending '(' pointing at its ')' |
| `QueryBrackets.StepPushNest` | src/com/polarnick/indexedSearch/Searcher.java:62-63 | a push keeps pairs nested, and the new pending '(' lies inside no matched pair |
| `QueryBrackets.StepPop` | src/com/polarnick/indexedSearch/Searcher.java:64-71 | closing the latest pending '(' keeps the table invariant |
| `QueryBrackets.PopOpens` | src/com/polarnick/indexedSearch/Searcher.java:70-71 | popping the top of the increasing stack of pending '(' leaves exactly the entries below it, all smaller |
| `QueryBrackets.StepPopPending` | src/com/polarnick/indexedSearch/Searcher.java:68-71 | after a pop the remaining pending '(' are still increasing, before the next position and unset |
| `QueryBrackets.StepPopClosers` | src/com/polarnick/indexedSearch/Searcher.java:68-69 | after a pop every ')' points back to its '(' and that '(' points to it |
| `QueryBrackets.StepPopOpeners` | src/com/polarnick/indexedSearch/Searcher.java:68-71 | after a pop every '(' no longer pending points forward to its ')' |
| `QueryBrackets.StepPopNest` | src/com/polarnick/indexedSearch/Searcher.java:68-71 | after a pop, pairs still nest and no pending '(' lies inside a pair |
| `QueryBrackets.StepKeeps` | src/com/polarnick/indexedSearch/Searcher.java:60-78 | each accepted character keeps the table invariant |
| `QueryBrackets.ScanTable` | src/com/polarnick/indexedSearch/Searcher.java:60-78 | every accepted prefix satisfies the table invariant |
| `QueryBrackets.PairTable` | src/com/polarnick/indexedSearch/Searcher.java:68-69 | after validation each ')' and its '(' point at each other, the '(' first, and pairs nest |
| `Searcher.IndexOf` | src/com/polarnick/indexedSearch/Searcher.java:91 | `String.indexOf(int)`: the first position holding that character code, or -1 when there is none |
| `Searcher.IndexFrom` | src/com/polarnick/indexedSearch/Searcher.java:91 | the search from position `i` on returns the first match at or after `i`, or -1 |
| `Searcher.MatchFromMeaning` | src/com/polarnick/indexedSearch/Searcher.java:182-186 | the character-by-character match holds iff every remaining character of the operator is in place |
| `Searcher.IsContainSubstringAt` | src/com/polarnick/indexedSearch/Searcher.java:178-188 | true iff the operator text occurs at `from` and ends strictly before the end of the query |
| `Searcher.FirstNonLetter` | src/com/polarnick/indexedSearch/Searcher.java:94-99 | every character before the result is a letter, and a result inside the range is a non-letter |
| `Searcher.TopOps` | src/com/polarnick/indexedSearch/Searcher.java:109-121 | the operators the scan meets lie inside the scanned range |
| `Searcher.TopOpsAreOperators` | src/com/polarnick/indexedSearch/Searcher.java:111-113 | each reported position holds the operator text and is not a '(' |
| `Searcher.TopOpsAscending` | src/com/polarnick/indexedSearch/Searcher.java:109-121 | the operators are reported in strictly increasing order |
| `Searcher.OperatorsAtTopLevel` | src/com/polarnick/indexedSearch/Searcher.java:111-112 | every '(' passed before an operator closes before it, so the operators are outside all brackets |
| `Searcher.OperatorAtTopLevel` | src/com/polarnick/indexedSearch/Searcher.java:109-113 | for one operator and one '(' scanned before it, the '(' closes before the operator |
| `Searcher.OpsAdvance` | src/com/polarnick/indexedSearch/Searcher.java:109-121 | moving on from `i` keeps the operators still to meet, minus the one met at `i` |
| `Searcher.EvalAndMeaning` | src/com/polarnick/indexedSearch/Searcher.java:82-86 | a successful evaluation of a range with top-level ANDs holds exactly the documents every AND segment finds, whatever ORs it contains: AND is tried first |
| `Searcher.EvalOrMeaning` | src/com/polarnick/indexedSearch/Searcher.java:82-90 | a successful evaluation of a range with no top-level AND but top-level ORs holds exactly the documents some OR segment finds |
| `Searcher.JunctionAndMeaning` | src/com/polarnick/indexedSearch/Searcher.java:104-138 | a successful `findAnd` holds a document iff every segment, the last one included, finds it |
| `Searcher.JunctionOrMeaning` | src/com/polarnick/indexedSearch/Searcher.java:141-176 | a successful `findOr` holds a document iff some segment, the last one included, finds it |
| `Searcher.SegmentsOk` | src/com/polarnick/indexedSearch/Searcher.java:115-126 | when every segment succeeds, the collected results are the evaluations of the ranges from `from` to each operator, then of the range after the last operator |
| `Searcher.Eval` | src/com/polarnick/indexedSearch/Searcher.java:82-102 | `find(pairBracket, str, from, to)` under a bracket rule: AND junction, else OR junction, else the stripped range, else a word |
| `Searcher.Junction` | src/com/polarnick/indexedSearch/Searcher.java:104-176 | `findAnd`/`findOr` once operators were found: the merge of all the segments, or the first segment error |
| `Searcher.Leaf` | src/com/polarnick/indexedSearch/Searcher.java:94-100 | a range without operators: the first non-letter refused, else the word looked up |
| `Searcher.LeafMeaning` | src/com/polarnick/indexedSearch/Searcher.java:94-100 | a word is looked up iff the range is well ordered and all letters; otherwise the error names the first non-letter and its 1-based position, or the range cannot be cut out |
| `Searcher.Merge` | src/com/polarnick/indexedSearch/Searcher.java:131-137 | the intersection (AND) or the union (OR) of the segments' sets |
| `Searcher.SearchWith` | src/com/polarnick/indexedSearch/Searcher.java:56-80 | `find(String)` under a bracket rule: validation, then the evaluation of the whole query |
| `Searcher.Segments` | src/com/polarnick/indexedSearch/Searcher.java:109-126 | there is one result per operator plus one for the part after the last operator |
| `Searcher.SegmentsPrefix` | src/com/polarnick/indexedSearch/Searcher.java:109-121 | the segment results collected so far are followed by the rest |
| `Searcher.SegmentsFail` | src/com/polarnick/indexedSearch/Searcher.java:115 | the first failing segment makes the whole junction fail with its error |
| `Searcher.ValidatedTable` | src/com/polarnick/indexedSearch/Searcher.java:57-79 | after validation without a stray '(' every jump goes forward and pairs nest |
| `Searcher.ShortQueriesNeverStrip` | src/com/polarnick/indexedSearch/Searcher.java:91 | as written, no range of a query of at most 40 characters passes the bracket test |
| `Searcher.BracketedRangeAsWritten` | src/com/polarnick/indexedSearch/Searcher.java:91-99 | as written, a bracketed range of a short query is refused at its '(' |
| `Searcher.BracketedRange` | src/com/polarnick/indexedSearch/Searcher.java:91-92 | with the corrected test, a bracketed range evaluates as its inside |
| `Searcher.BracketedWordTable` | src/com/polarnick/indexedSearch/Searcher.java:60-78 | validating "(x)" pairs its two brackets and leaves nothing pending |
| `Searcher.BracketedWord` | src/com/polarnick/indexedSearch/Searcher.java:56-102 | "(x)" is refused as written and finds the documents of "x" with the corrected test |
| `Searcher.FoldWithMeaning` | src/com/polarnick/indexedSearch/Searcher.java:131-137 | merging into a set keeps a document iff it is in the start set and in all (AND) or in the start set or in some (OR) of the sets merged |
| `Searcher.SkipChosen` | src/com/polarnick/indexedSearch/Searcher.java:133-135 | skipping the chosen set itself changes nothing |
| `Searcher.MergeMeaning` | src/com/polarnick/indexedSearch/Searcher.java:131-137 | a document is in the AND merge iff every segment has it, in the OR merge iff some segment has it |
| `Searcher.FoldWithMerge` | src/com/polarnick/indexedSearch/Searcher.java:117-137 | whichever set is chosen to merge into, the result is the same |
| `Searcher.MergeInto` | src/com/polarnick/indexedSearch/Searcher.java:131-138 | the merge loop returns the intersection (AND) or union (OR) of all segments |
| `Searcher.AddSegment` | src/com/polarnick/indexedSearch/Searcher.java:114-119 | evaluating the segment up to an operator, under the given bracket rule, either fails with that segment's error or adds its result and keeps the chosen index valid |
| `Searcher.ScanStep` | src/com/polarnick/indexedSearch/Searcher.java:110-120 | one turn of the scan keeps the collected results equal to the segments' evaluations under the given rule, or reports the first error |
| `Searcher.CollectSegments` | src/com/polarnick/indexedSearch/Searcher.java:106-121 | the scan loop collects exactly the results of the segments up to each top-level operator, or stops at the first failing one |
| `Searcher.FindJunction` | src/com/polarnick/indexedSearch/Searcher.java:104-176 | `findAnd`/`findOr`: no result when the range has no top-level operator, otherwise exactly the junction the evaluator defines under the given rule |
| `Searcher.FinishJunction` | src/com/polarnick/indexedSearch/Searcher.java:122-138 | after the scan met operators, the last segment is evaluated and the result is exactly the junction: the merge of all segments, or the last segment's error |
| `Searcher.FindRange` | src/com/polarnick/indexedSearch/Searcher.java:82-102 | the range evaluator returns exactly `Eval` under the given rule; with `AsWritten` it performs the test of line 91 as written |
| `Searcher.FindWord` | src/com/polarnick/indexedSearch/Searcher.java:94-100 | the letter check and lookup return exactly `Leaf` |
| `Searcher.IsBracketed` | src/com/polarnick/indexedSearch/Searcher.java:91 | the bracket test holds exactly when the rule's condition does: as written, `indexOf(from)` is the code of '(' and `indexOf(to - 1)` the code of ')'; corrected, the range is non-empty and starts with '(' and ends with ')' |
| `Searcher.PairBrackets` | src/com/polarnick/indexedSearch/Searcher.java:57-78 | the validation loop fails exactly when validation fails, with its error, and otherwise fills the pair table validation defines |
| `Searcher.CloseBracket` | src/com/polarnick/indexedSearch/Searcher.java:64-71 | closing a bracket sets both table entries to each other's position and pops the stack, exactly as the validation step defines |
| `Searcher.Find` | src/com/polarnick/indexedSearch/Searcher.java:56-80 | `find(String)` returns exactly `SearchWith(rule, …)`: validation, then the evaluation of the whole query; with `AsWritten` this is the source's behaviour |

## Left out

- **The morphological analysers (Lucene).** They are a function parameter of each language. The Russian and English analysers themselves, and the failure to load them, are not modelled.
- **Concurrency.**
  - Concurrent maps and `putIfAbsent` races are not modelled.
  - The per-thread normal-form cache is one map per index.
  - The thread pool of `Indexer.index` is not modelled.
  - The model is sequential.
- **Not modelled at all:**
  - file reading and walking;
  - `saveToFile`/`loadFromFile`;
  - the `main` methods;
  - the progress, timing and cache-trace printing;
  - `CalculateGain`.
- **Java serialization.** `defaultWriteObject` and the byte format are replaced by a stream of items: `writeInt` and `writeObject` of a string, a string list or an integer list.
- `IndexCodec.Decode` / `IndexCodec.ReadPostings` / `IndexCodec.ReadObject` (list element kinds): the casts `(List<String>)` at Index.java:153 and `(List<Integer>)` at Index.java:171 are unchecked after type erasure, so Java accepts a list with the other kind of element there and stores it, leaving a map whose keys or position lists hold values of the wrong type. The model reports `WrongType` instead: an integer list where the document table belongs, or a string list where a position list belongs. Streams written by `writeObject` never contain either, so `IndexCodec.DecodeEncode` is unaffected.
- **The searcher's index.** The generic index that the searcher and the indexer call (`get` returning a set, a two-argument `put`) is not part of this model. The searcher takes it as a `Lookup` of two functions. `Indexer.IndexLine` takes the position as a parameter of `Index.Put`.
- **Integer overflow.** Positions and counts are unbounded integers; Java's 32-bit wrap-around is not modelled.
- **`Languages.ToLower`.** Only 'A'..'Z' and 'А'..'Я' are lowered; Java's locale-dependent `toLowerCase` also lowers other scripts. Every token that reaches `put` or `get` has been checked to consist of letters of the two alphabets, so only these ranges matter there.
- **Characters.** Dafny characters are Unicode scalar values. Java's UTF-16 surrogate halves, and `indexOf` on supplementary code points, are not modelled.
- **`Searcher.CollectSegments` (first smallest set).** The contract states only that the chosen set is one of the collected ones, not that it is the first smallest. `Searcher.FoldWithMerge` proves that the merge is the same whichever set is chosen.
- **`Searcher.MergeInto` (in-place update and aliasing).** The source merges into the chosen set in place (`retainAll`/`addAll`). That set can be owned by the index, or be another segment's set, and the source skips it by reference (`result == set`). The model merges values and skips the chosen position. Update in place and aliasing are not captured.
- **`Searcher.Find` (stray '(').** Its precondition `NoStrayOpen` rules out every query with an unmatched '(' other than at position 0. Such a '(' keeps table entry 0, so an operator scan that reaches it jumps back to the start of the query. The source may then loop forever, adding a segment result on every round until memory runs out. That happens when the scan reaches the stray '(' before any segment is refused. Queries where the source instead stops with an error are excluded too. An example is "a b AND (c", where the segment "a b" is refused at position 2 before the scan reaches the '('. Non-termination and these excluded queries are not modelled.
- `Searcher.SearchWith` (stray '('): it has the same precondition `NoStrayOpen` as `Searcher.Find`, so it excludes the same queries, including ones the source ends with an error, such as "a b AND (c".
- `Searcher.Search` (stray '('): it is `SearchWith` under the corrected rule and excludes the same queries.
- **`Searcher.FindRange` (empty ranges).** Under `ByChar`, the corrected bracket test also requires `from < to`, so that an empty range is never stripped.

## Findings

| source | as written | input that shows it | evidently intended | confidence | as-written member | corrected member |
|---|---|---|---|---|---|---|
| src/com/polarnick/indexedSearch/Searcher.java:91 | `str.indexOf(from) == '('` compares the position of the first character whose code is `from` with 40, the code of '(' (and likewise for `to - 1` and ')') | the query "(x)", where x is a letter: the bracket test fails, the range is read as a word, and "Incorrect symbol '(' at position 1" is raised | a range enclosed by a bracket pair evaluates as its inside, so "(x)" finds the documents of "x" | not executed | `Searcher.BracketedRangeAsWritten` | `Searcher.BracketedRange` |

- **As written.** `Searcher.ShortQueriesNeverStrip` shows that in a query of at most 40 characters no range ever passes the bracket test.
- **Corrected.** The corrected test compares the characters at `from` and `to - 1`. It is the `ByChar` rule, which `Search` uses. `Find`, `FindRange` and the junction methods take the rule as a parameter, and `Find(ByChar, …)` is the corrected program.
- **Concrete instance.** `Searcher.BracketedWord` proves both behaviours on the query "(x)".
