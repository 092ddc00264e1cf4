# Automated-Documentation-Generator core, modelled in Dafny

The model covers three parts of the program.

- **Code analysis.** It covers the analysis of a TypeScript or JavaScript project, from `src/core/CodeAnalyzer.ts`. Each source file is split into lines. Its classes, interfaces and type aliases are found by regular expressions applied to one line at a time. Its functions are found by three `/gm` patterns whose `lastIndex` carries over from line to line. The model holds the function scan twice: as the source writes it (`FunctionScan.ExtractFunctionsAsWritten`), and corrected (`FunctionScan.ExtractFunctions`, Findings F2, F3, F4 and F6). The rest of the model uses the corrected scan. Each entity is recorded with:
  - its parameters;
  - its JSDoc description;
  - its line number;
  - its export flag;
  - for classes and interfaces, its members. These are read from the body that the brace-counting loop cuts out.
- **Semantic search.** It covers the in-memory part of the semantic search index, from `src/core/SemanticSearch.ts`:
  - the text chunks built for every file and every exported entity;
  - the batches of 100 texts sent to the embedding service;
  - the records stored from the returned vectors;
  - cosine similarity;
  - the ranking of a search (a stable descending sort, then `slice(0, limit)`);
  - the context sentence reported with each hit;
  - the file summary line;
  - clearing and counting.
- **Documentation text.** It covers the text the documentation generator builds without a language model, from `src/core/DocumentationGenerator.ts`:
  - the project summary;
  - the API summary;
  - the choice of the functions that code examples are generated for.

The regular expressions are modelled by hand-written recognisers (`Shapes`). Each one returns what `match`/`exec` would return: the end of the match and the capture groups, with `None` for an undefined group. For each pattern, the recogniser follows the pattern's backtracking behaviour. The `/gm` function patterns also carry their `lastIndex` from one line to the next (`FunctionScan.Exec`, after RegExpBuiltinExec in section 22.2.7.2 of ECMA-262).

Where the program does I/O, the model takes what the I/O produced as a parameter:
- file contents arrive as `Analysis.Source`, with `None` for a file that could not be read;
- the embedding service's answer to each batch is an `Option<seq<Vector>>`;
- the query vector `q` is a parameter;
- `Math.sqrt` is a parameter `sqrt` that is non-zero on non-zero input;
- the embeddings file is a `Store.Disk` value (`Missing`, `Unreadable` or `Saved(records)`).

Modules, one per file:
- `Wrappers`, `Text` (trim, split, includes, lower-casing, decimals) and `Lists` (filter, take, flat-map, map);
- `Entities` (the records of `src/types/index.ts`);
- `Shapes` (regular expressions);
- `Analyzer` (classes, interfaces, types, members, parameters, descriptions, language);
- `FunctionScan`, `FunctionLines` and `ScanFindings` (function extraction);
- `Analysis` (the project walk);
- `Kinds`, `Chunks`, `Batching`, `Similarity`, `Ranking`, `Context` and `Store` (semantic search);
- `ProjectSummary` and `ApiSummary` (documentation text).

## Model

| member | source | states |
|---|---|---|
| Analyzer.Language | src/core/CodeAnalyzer.ts:53-61 | `.ts`/`.tsx` map to "typescript", `.js`/`.jsx` to "javascript", and every other extension to "unknown", each as an if-and-only-if |
| Analyzer.Or | src/core/CodeAnalyzer.ts:85-87 | `a \|\| b` on optional strings picks one of the two, and is truthy exactly when one of them is |
| Analyzer.TrimOr | src/core/CodeAnalyzer.ts:235 | `g?.trim() \|\| fallback` is the fallback or the non-empty trimmed group, and is trimmed whenever the fallback is |
| Analyzer.TrimmedList | src/core/CodeAnalyzer.ts:117 | `split(",").map(trim)` gives one trimmed piece per comma-separated piece, and never none |
| Analyzer.ListGroup | src/core/CodeAnalyzer.ts:162 | an `extends`/`implements` list is present exactly when its group matched, and is then the trimmed pieces |
| Analyzer.ParseParameter | src/core/CodeAnalyzer.ts:340-358 | a piece that does not read as `name?: type` becomes a parameter named by the trimmed piece, of type `any`; the description is always empty |
| Analyzer.ParseParameters | src/core/CodeAnalyzer.ts:337-360 | the list is empty exactly when the text is blank, and otherwise has one parameter per comma-separated piece, in order |
| Analyzer.ParseDeclaredParameters | src/core/CodeAnalyzer.ts:337-360 | round trip: parsing the declared list `a: A, b?: B, ...` gives back the parameters, names, types and optional flags, in order |
| Analyzer.DescriptionAsWritten | src/core/CodeAnalyzer.ts:362-382 | the description as the source computes it is trimmed |
| Analyzer.Description | src/core/CodeAnalyzer.ts:362-382 | the corrected description is trimmed |
| Analyzer.DescriptionAfterCode | src/core/CodeAnalyzer.ts:376-377 | a line of code right above a declaration leaves it without a description, in both versions |
| Analyzer.DescriptionOfBlock | src/core/CodeAnalyzer.ts:367-381 | under a JSDoc block, the corrected description is the block's text lines joined by single spaces |
| Analyzer.DescriptionAsWrittenOfBlock | src/core/CodeAnalyzer.ts:370-373 | as written, the same block gives its text followed by ` /`, from the closing line |
| Analyzer.WalkOverClosing | src/core/CodeAnalyzer.ts:370-373 | the closing line ` */` is read as the comment text `/` by the source, and passed over by the corrected walk |
| Analyzer.WalkFrame | src/core/CodeAnalyzer.ts:367-379 | the walk up from line `i` reads no line below `i`: two texts that agree up to line `i` give the same walk, in both versions |
| Analyzer.DescriptionFrame | src/core/CodeAnalyzer.ts:362-382 | a declaration's description depends only on the lines above it, in both versions |
| Analyzer.WalkPassesOver | src/core/CodeAnalyzer.ts:376-378 | a blank line or a `//` comment neither stops the walk nor adds to it, in both versions |
| Analyzer.DescriptionPassesOver | src/core/CodeAnalyzer.ts:362-382 | a declaration under a blank line or a `//` comment has the description it would have on that line, in both versions |
| Analyzer.WalkPrepends | src/core/CodeAnalyzer.ts:370-373 | a line starting with `*` whose text is no tag puts its text, with `*` and the spaces after it removed, in front of what was gathered below it, joined by one space |
| Analyzer.WalkStopsAtTag | src/core/CodeAnalyzer.ts:370-372 | the walk ends at a comment line whose text starts with `@`, in both versions |
| Analyzer.WalkStopsAtOpening | src/core/CodeAnalyzer.ts:374-375 | the walk ends at any line that starts with `/**`, in both versions |
| Analyzer.WalkStopsAtCode | src/core/CodeAnalyzer.ts:376-377 | the walk ends at a line that is neither blank nor a `*` or `//` comment, in both versions |
| Analyzer.Somes | src/core/CodeAnalyzer.ts:109-146 | the loop that pushes a record per matching line reports no more records than lines |
| Analyzer.SomesInOrder | src/core/CodeAnalyzer.ts:109-146 | the records come out in the order of their lines |
| Analyzer.SomesComplete | src/core/CodeAnalyzer.ts:109-146 | every matching line is reported |
| Analyzer.SomesOrigin | src/core/CodeAnalyzer.ts:109-146 | every reported record comes from some line |
| Analyzer.MethodAt | src/core/CodeAnalyzer.ts:227-246 | a body line gives a method exactly when the method pattern matches it, numbered `startLine + k + 1` |
| Analyzer.ExtractMethods | src/core/CodeAnalyzer.ts:221-251 | the methods are exactly the matching lines' records, in strictly increasing line order, each on the line it was read from |
| Analyzer.ClassPropertyAt | src/core/CodeAnalyzer.ts:259-274 | a body line gives a property exactly when the class property pattern matches it, numbered `startLine + k + 1` |
| Analyzer.ExtractClassProperties | src/core/CodeAnalyzer.ts:253-279 | the class properties are exactly the matching lines' records, in line order |
| Analyzer.InterfacePropertyAt | src/core/CodeAnalyzer.ts:287-301 | a body line gives a property exactly when the interface property pattern matches it; it is never readonly |
| Analyzer.ExtractInterfaceProperties | src/core/CodeAnalyzer.ts:281-306 | the interface properties are exactly the matching lines' records, in line order |
| Analyzer.InterfaceMethodAt | src/core/CodeAnalyzer.ts:314-330 | a body line gives a method signature exactly when the pattern matches it; it is never async, private or static |
| Analyzer.ExtractInterfaceMethods | src/core/CodeAnalyzer.ts:308-335 | the interface methods are exactly the matching lines' records, in line order |
| Analyzer.Body | src/core/CodeAnalyzer.ts:120-129 | the brace-counting loop pushes a contiguous run of the lines that follow the declaration |
| Analyzer.BodyStops | src/core/CodeAnalyzer.ts:124-129 | a line is pushed only while the depth before it is positive, and the loop stops at the end of the file or after the first line that brings the depth to zero or below |
| Analyzer.BodyLines | src/core/CodeAnalyzer.ts:131 | joining the body with newlines and splitting it again gives the body back (one empty line for an empty body) |
| Analyzer.ExportGroupIncludes | src/core/CodeAnalyzer.ts:114 | `match[1]?.includes("export")` holds exactly when the line starts with `export` and white space |
| Analyzer.ClassAt | src/core/CodeAnalyzer.ts:111-144 | a line declares a class exactly when the class pattern matches it; the class is numbered with the line and is exported exactly when the line starts with `export` |
| Analyzer.ExtractClasses | src/core/CodeAnalyzer.ts:105-149 | the classes are exactly the declaring lines' records, in line order |
| Analyzer.InterfaceAt | src/core/CodeAnalyzer.ts:157-188 | a line declares an interface exactly when the interface pattern matches it, with its line number and export flag |
| Analyzer.ExtractInterfaces | src/core/CodeAnalyzer.ts:151-193 | the interfaces are exactly the declaring lines' records, in line order |
| Analyzer.TypeAt | src/core/CodeAnalyzer.ts:201-214 | a line declares a type alias exactly when the type pattern matches it; the definition is trimmed |
| Analyzer.ExtractTypes | src/core/CodeAnalyzer.ts:195-219 | the type aliases are exactly the declaring lines' records, in line order |
| Analyzer.ClassMembersOnTheirLines | src/core/CodeAnalyzer.ts:120-133 | a class's methods and properties are read from its body lines, numbered as lines of the file, and no method or property line of the body is missed |
| Analyzer.InterfaceMembersOnTheirLines | src/core/CodeAnalyzer.ts:165-178 | the same for an interface's properties and method signatures |
| Shapes.TypedParameterReads | src/core/CodeAnalyzer.ts:342 | `^(\w+)(\?)?\s*:\s*(.+)$` reads a declared parameter's name, its `?` and its type |
| FunctionScan.Exec | src/core/CodeAnalyzer.ts:81 | `exec` on a `/gm` pattern finds a match at or after `lastIndex`, and leaves `lastIndex` after it; it resets it to 0 on failure |
| FunctionScan.ExecFirst | src/core/CodeAnalyzer.ts:81 | the match `exec` returns is the first one from `lastIndex` on |
| FunctionScan.StickyExec | src/core/CodeAnalyzer.ts:77-81 | on a line with no line terminator, a search from a non-zero `lastIndex` finds nothing and resets it |
| FunctionScan.FunctionAsWritten | src/core/CodeAnalyzer.ts:83-97 | the record the source builds from a match has the line's number and a trimmed return type; its description is the source's own upward walk (`Analyzer.DescriptionAsWritten`) |
| FunctionScan.FunctionAsWrittenUnderBlock | src/core/CodeAnalyzer.ts:93 | under a JSDoc block, the record as written carries the block's text followed by ` /` |
| FunctionScan.ExtractFunctionsAsWritten | src/core/CodeAnalyzer.ts:63-103 | the scan as written reports exactly the records its patterns push on the lines of the content, in line order, each numbered with a line of the content, with a trimmed return type and with the description the source's walk reads (`FunctionScan.FunctionAsWritten`) |
| FunctionScan.ReportedAsWritten | src/core/CodeAnalyzer.ts:77-98 | as written, a pattern pushes a record on a line exactly when it recognises the line and pushed none on the line before; the record is read from that match |
| FunctionScan.LineAsWrittenRecords | src/core/CodeAnalyzer.ts:80-98 | as written, a line's records are the regular pattern's, then the arrow pattern's, then the method-like pattern's |
| FunctionScan.ScanAsWrittenFound | src/core/CodeAnalyzer.ts:77-100 | as written, the records of the lines from `i` on are exactly those the patterns push on those lines |
| FunctionScan.ScanAsWrittenInOrder | src/core/CodeAnalyzer.ts:77-100 | as written, the records come in line order |
| FunctionScan.NextLineMissedAsWritten | src/core/CodeAnalyzer.ts:77-82 | as written, once a pattern matched a line, it cannot match the next line |
| FunctionScan.FunctionFrom | src/core/CodeAnalyzer.ts:83-97 | corrected record (Findings F3, F4, F6): the name, the parameters and the return type come from the groups the matching pattern declares for them; a method-like match is never exported |
| FunctionScan.FunctionAt | src/core/CodeAnalyzer.ts:80-98 | corrected scan (Findings F2): a pattern gives a record on a line exactly when it matches the line from its start, whatever it matched on the line before |
| FunctionScan.LineFunctionsFound | src/core/CodeAnalyzer.ts:80-98 | corrected scan (Findings F2): a line's records are exactly those its three patterns find, each searched from the line's start |
| FunctionScan.AtMostOnePerPattern | src/core/CodeAnalyzer.ts:80-98 | corrected scan (Findings F2): a line gives at most one record per pattern, so at most three |
| FunctionScan.ScanFound | src/core/CodeAnalyzer.ts:77-100 | corrected scan (Findings F2): the records of the lines from `i` on are exactly those the patterns find on those lines |
| FunctionScan.ScanInOrder | src/core/CodeAnalyzer.ts:77-100 | corrected scan (Findings F2): the records come in line order |
| FunctionScan.ExtractFunctions | src/core/CodeAnalyzer.ts:63-103 | corrected scan (Findings F2, F3, F4, F6): the functions are exactly those the patterns find on the lines, each line searched from its start, in line order, each on a line of the content, with trimmed return types |
| FunctionLines.RegularLineReads | src/core/CodeAnalyzer.ts:70 | the regular pattern reads a declaration's export keyword, name, parameter text and return type |
| FunctionLines.MethodLineReads | src/core/CodeAnalyzer.ts:74 | the method-like pattern reads a bare signature's name, parameter text and return type |
| FunctionLines.RegularRecord | src/core/CodeAnalyzer.ts:83-97 | the corrected record of a regular declaration holds its name, its parsed parameters, its trimmed return type, its line and its export flag |
| FunctionLines.RegularRecordAsWritten | src/core/CodeAnalyzer.ts:83-96 | as written, name, return type, line and flags are right; the parameters come from the return type when the parameter list is empty (:86), and the description is the walk as written (:93), which ends a JSDoc block in ` /` |
| FunctionLines.MethodRecordAsWritten | src/core/CodeAnalyzer.ts:85-87 | as written, a bare signature is recorded with the parameter text as its name, the return type parsed as its parameters and `void` as its return type; the description is the walk as written |
| FunctionLines.ExportedDeclarationRead | src/core/CodeAnalyzer.ts:63-103 | corrected scan: an exported one-line declaration alone in a file gives exactly one record: its name, parameters, return type, line 1, exported |
| ScanFindings.SecondDeclarationMissedAsWritten | src/core/CodeAnalyzer.ts:68-82 | as written, of two regular declarations on consecutive lines, only the first is reported |
| ScanFindings.BothDeclarationsFound | src/core/CodeAnalyzer.ts:77-100 | the corrected scan reports both, each with its own line and export flag |
| ScanFindings.SignatureMisreadAsWritten | src/core/CodeAnalyzer.ts:85-87 | as written, a bare signature gets its parameter text as its name |
| ScanFindings.SignatureRead | src/core/CodeAnalyzer.ts:74 | the corrected scan reads name, parameters and return type of a bare signature |
| ScanFindings.ParameterlessMisreadAsWritten | src/core/CodeAnalyzer.ts:86 | as written, a regular declaration without parameters gets its return type as a non-empty parameter list |
| ScanFindings.ParameterlessRead | src/core/CodeAnalyzer.ts:70 | the corrected scan gives it no parameters |
| ArrowLines.ArrowLineReads | src/core/CodeAnalyzer.ts:72 | the arrow pattern reads a one-line arrow function's `export `, keyword, name, `async `, parameter text and return type as groups 1 to 6 |
| ArrowLines.ArrowLineRecognised | src/core/CodeAnalyzer.ts:70-74 | on such a line the arrow pattern matches with those groups, and the regular and method-like patterns do not match |
| ArrowLines.ArrowRecordAsWritten | src/core/CodeAnalyzer.ts:83-87 | as written, the record of an arrow function has its name, is never async, takes its parameters from the `async` group when there is one, and its return type from the parameter text unless that is empty; the description is the walk as written |
| ArrowLines.ArrowRecord | src/core/CodeAnalyzer.ts:83-97 | the corrected record of an arrow function holds its name, parsed parameters, trimmed return type, line, async flag and export flag |
| ArrowLines.ArrowLineAsWritten | src/core/CodeAnalyzer.ts:77-98 | as written, a line holding an arrow function pushes that one record when the arrow pattern's `lastIndex` is 0 |
| ArrowLines.ArrowLineFunctions | src/core/CodeAnalyzer.ts:77-98 | the corrected scan gives a line holding an arrow function exactly its one record |
| ArrowLines.AsyncParsed | src/core/CodeAnalyzer.ts:337-360 | the parameter text `async ` parses as one parameter `async` of type `any` |
| ScanFindings.ArrowMisreadAsWritten | src/core/CodeAnalyzer.ts:72-87 | as written, a one-line arrow function is reported once, with its name, never as async, with the single parameter `async` when it is async, and with the parameter text as its return type unless that is empty |
| ScanFindings.ArrowRead | src/core/CodeAnalyzer.ts:72 | the corrected scan reports it with its name, parameters, trimmed return type, line 1, async flag and export flag |
| Analysis.AnalyzeFile | src/core/CodeAnalyzer.ts:19-27 | a file's record keeps its path and content, and holds its language, the functions of the corrected scan (Findings F2) and exactly the classes, interfaces and types its lines declare |
| Analysis.Attempt | src/core/CodeAnalyzer.ts:14-32 | a file gives a record exactly when it could be read |
| Analysis.AnalyzeProject | src/core/CodeAnalyzer.ts:9-36 | every record comes from a source, every readable source gives its record, and no more records than sources |
| Analysis.AllRead | src/core/CodeAnalyzer.ts:13-33 | when every file can be read, there is one record per file, in order |
| Kinds.OfKind | src/core/SemanticSearch.ts:29-62 | a file's list of one kind has one entity per element, each of that kind |
| Kinds.ItemsOfKind | src/core/SemanticSearch.ts:29-62 | an entity belongs to the whole list exactly when it belongs to its kind's list |
| Kinds.ExportedItems | src/core/SemanticSearch.ts:29-62 | the exported entities of a file, kind by kind |
| Chunks.ExportedNamesListed | src/core/SemanticSearch.ts:157 | a name is listed in a section exactly when an exported entity of that kind carries it |
| Chunks.PresentKinds | src/core/SemanticSearch.ts:156-170 | the kinds with at least one entity, exported or not, in the order functions, classes, interfaces, types |
| Chunks.SectionPresent | src/core/SemanticSearch.ts:156-170 | the summary holds a kind's section exactly when the file has an entity of that kind |
| Chunks.SummaryEmpty | src/core/SemanticSearch.ts:153-173 | the file summary is empty exactly when the file has no entity at all |
| Chunks.FileChunks | src/core/SemanticSearch.ts:23-62 | a file gives one summary chunk plus one chunk per exported entity |
| Chunks.ChunkOrigin | src/core/SemanticSearch.ts:23-63 | every chunk is a file's summary or the chunk of one of its exported entities |
| Chunks.SummaryPlaced | src/core/SemanticSearch.ts:25-26 | every file contributes its summary, right after the chunks of the files before it |
| Chunks.ItemPlaced | src/core/SemanticSearch.ts:29-62 | the file's exported entities follow its summary, in order |
| Chunks.BuildChunks | src/core/SemanticSearch.ts:19-63 | the loops fill `texts` and `metadata` in step with the chunk list |
| Batching.Batches | src/core/SemanticSearch.ts:66-70 | there are `ceil(n / 100)` batches, each of 1 to 100 texts |
| Batching.BatchesJoin | src/core/SemanticSearch.ts:69-70 | the batches put together are the texts, in order |
| Batching.BatchSlice | src/core/SemanticSearch.ts:69-70 | batch `b` is `texts.slice(100 * b, 100 * b + 100)` |
| Batching.SendBatches | src/core/SemanticSearch.ts:65-85 | the loop sends exactly the batches, in order, and collects the vectors of the calls that answered |
| Batching.RecordsAsWritten | src/core/SemanticSearch.ts:88-93 | the source stores records exactly when there are no more vectors than texts, one per vector |
| Batching.AsWrittenWhenAllAnswered | src/core/SemanticSearch.ts:65-93 | when every batch is answered in full, the source's records are the chunk-aligned ones |
| Batching.RecordsPerChunk | src/core/SemanticSearch.ts:65-93 | the corrected records are, in order, the records of the chunks whose own vector came back |
| Batching.MisalignedAsWritten | src/core/SemanticSearch.ts:82-93 | as written, with the first batch failing, the vector of chunk 100 is stored under the text of chunk 0 |
| Similarity.CosineSimilarity | src/core/SemanticSearch.ts:175-191 | the loop computes the cosine similarity: 0 for different lengths or a zero norm, otherwise the dot product over the product of the norms |
| Similarity.CosineSymmetric | src/core/SemanticSearch.ts:175-191 | the similarity does not depend on the order of its arguments |
| Similarity.CosineSelf | src/core/SemanticSearch.ts:175-191 | a non-zero vector is perfectly similar to itself |
| Similarity.ZeroVector | src/core/SemanticSearch.ts:188 | a zero vector has similarity 0 with every vector |
| Ranking.SortDescending | src/core/SemanticSearch.ts:126 | the sort orders the hits by non-increasing similarity |
| Ranking.SortStable | src/core/SemanticSearch.ts:126 | the sort is stable: records of equal similarity keep their order |
| Ranking.SliceEnd | src/core/SemanticSearch.ts:127 | `slice(0, limit)` keeps `limit` elements, or all of them; a negative limit counts back from the end |
| Ranking.TopBest | src/core/SemanticSearch.ts:125-127 | the kept hits are in order, kept and dropped together are the input, and no dropped hit ranks above a kept one |
| Context.QueryWords | src/core/SemanticSearch.ts:194 | splitting the query on white space always gives at least one word |
| Context.Best | src/core/SemanticSearch.ts:197-209 | the loop settles on the first sentence with the greatest positive count, and on none when no sentence matches |
| Context.ExtractContext | src/core/SemanticSearch.ts:193-212 | the loop computes the trimmed best sentence, or the first 200 characters followed by `...` |
| Context.EmptyQueryFirstSentence | src/core/SemanticSearch.ts:193-212 | with the empty query, every sentence counts one match, so the context is the first sentence |
| Context.NoMatchFallback | src/core/SemanticSearch.ts:211 | when no sentence holds a query word, the context is the start of the text |
| Store.Generate | src/core/SemanticSearch.ts:16-98 | the generated records are saved to the file |
| Store.Load | src/core/SemanticSearch.ts:219-228 | a saved file replaces the records in memory with its records; a missing or unreadable file leaves the object as it was; loading never changes the file |
| Store.Clear | src/core/SemanticSearch.ts:230-235 | after clearing, nothing is counted |
| Store.Search | src/core/SemanticSearch.ts:100-135 | a search leaves the file alone, and leaves an index that holds records unchanged |
| Store.SearchRanked | src/core/SemanticSearch.ts:100-135 | a search returns `slice(0, limit)` many results, best first, each the hit of a stored record |
| Store.SearchComplete | src/core/SemanticSearch.ts:119-127 | no stored record is passed over for a less similar one |
| Store.GenerateAllAnswered | src/core/SemanticSearch.ts:65-93 | with every batch answered, the index holds one record per chunk, with the chunk's text and place and the vector at its position |
| Store.ReloadSameResults | src/core/SemanticSearch.ts:96-108 | a new index over the saved file answers every search as the one that generated it |
| Store.ClearForgets | src/core/SemanticSearch.ts:230-235 | after clearing, searches find nothing |
| Store.UnreadableFindsNothing | src/core/SemanticSearch.ts:219-228 | an unreadable file leaves the index empty, so searches find nothing |
| Store.SearchByNameAtMostFive | src/core/SemanticSearch.ts:137-147 | the searches by function, class and type name return at most five results |
| ProjectSummary.TotalCountsEntities | src/core/DocumentationGenerator.ts:132-135 | a total is the number of entities of its kind over all files |
| ProjectSummary.TotalsCountEntities | src/core/DocumentationGenerator.ts:131-145 | the statistics header counts the files and every entity of every file |
| ProjectSummary.FileStatsInOrder | src/core/DocumentationGenerator.ts:147-153 | the summary holds one statistics block per file, in input order, counting the file's own lists |
| ProjectSummary.KeyHeadings | src/core/DocumentationGenerator.ts:159-170 | the functions heading appears exactly when the file has a function, exported or not; the classes heading likewise for classes |
| ProjectSummary.KeyLines | src/core/DocumentationGenerator.ts:158-177 | the function lines are those of the listed functions, and the class lines those of all exported classes, in order |
| ProjectSummary.ListedFirstFive | src/core/DocumentationGenerator.ts:161-163 | at most five functions are listed; all are exported and are the exported ones of a prefix of the list |
| ProjectSummary.ClassLineExtends | src/core/DocumentationGenerator.ts:174 | a class line names its superclass exactly when the class has a non-empty one |
| ProjectSummary.ExamplesFirstFive | src/core/DocumentationGenerator.ts:252-255 | the examples are the first five exported, described functions across the files, in file order |
| ApiSummary.ParameterDocOptional | src/core/DocumentationGenerator.ts:196 | a parameter is written `name: type`, followed by `?` exactly when it is optional |
| ApiSummary.DescriptionIff | src/core/DocumentationGenerator.ts:200-242 | an entry has a description field exactly when the description is non-empty, and that field comes last |
| ApiSummary.FunctionLabels | src/core/DocumentationGenerator.ts:196-199 | a function's fields are headed Parameters, Returns, Async and Exported, in that order |
| ApiSummary.ClassExtends | src/core/DocumentationGenerator.ts:210 | a class has an Extends field exactly when its superclass is non-empty |
| ApiSummary.ClassImplements | src/core/DocumentationGenerator.ts:211 | a class has an Implements field exactly when it implements something |
| ApiSummary.FileEntriesEmpty | src/core/DocumentationGenerator.ts:185-188 | a file contributes nothing exactly when it has no entity of any kind |
| ApiSummary.SectionLists | src/core/DocumentationGenerator.ts:192-245 | a kind's section documents each of its entities, in order |
| ApiSummary.SectionHeadingIff | src/core/DocumentationGenerator.ts:192-235 | a file's entries hold a `Kind (n)` heading exactly when `n` is the file's non-zero count of that kind |
| ApiSummary.EveryEntityDocumented | src/core/DocumentationGenerator.ts:185-246 | every entity of a file is documented under the file |

## Left out

- File discovery (`findCodeFiles`, CodeAnalyzer.ts:38-51) and reading: these are I/O. The analysed sources arrive already found, with relative paths and extensions; a read failure is `content == None`.
- The OpenAI embeddings and chat calls are left out as network calls. Each batch's answer and the query vector are parameters. A thrown call is `None`.
- The JSON encoding of the embeddings file is left out. The file is `Saved(records)`, `Missing` or `Unreadable`, and a readable file gives back what was saved.
- Console output (`console.log`, `console.warn`, `console.error`) is left out. It has no effect on results.
- Numbers are modelled as unbounded reals, not IEEE doubles. `Math.sqrt` is a parameter assumed non-zero on non-zero input. NaN and infinities are left out, and so is the sort's behaviour under a NaN comparator result.
- Similarity.CosineSelf: requires that `sqrt` squares back to the squared norm. Floating-point rounding can make the source's result differ slightly from 1.
- `toLowerCase` is modelled on ASCII letters only. Unicode case mapping is left out.
- Strings are sequences of characters. JavaScript's UTF-16 code units, which `substring(0, 200)` counts, are not distinguished from characters.
- `async`/`await` and `Promise` sequencing are left out. The operations are modelled as the sequential steps they perform.
- The prompts and language-model calls of `DocumentationGenerator.ts` are left out, as network calls. So are the markdown files it writes, and everything outside the three functions modelled: the README/API/architecture generation and the CLI.
- The `config` parameter of `createProjectSummary` is left out because its body never reads it.
- Store.Search: the query vector is a parameter, so the contract cannot relate it to the query text.
- Store.Generate: `saveEmbeddings` writes the records that `generateEmbeddings` computes. The model stores the chunk-aligned records; see Findings F5. The source's own pairing is `Batching.RecordsAsWritten`.
- Analyzer.Description: the corrected walk is used everywhere in the model; see Findings F1. `Analyzer.DescriptionAsWritten` keeps the source's reading.
- Analysis.AnalyzeFile: the functions of a file's record come from the corrected scan, not from the source's. For `function a(): void` followed by `function b(): void` the source records only `a`. For `run(x: number): void` it records the name `x: number`, and for `export function f(): string` the parameter `string`. Its descriptions come from the corrected walk, not the source's (Findings F1). Findings F1, F2, F3, F4 and F6 give each difference. The source's own records are `FunctionScan.ExtractFunctionsAsWritten`.
- FunctionScan.ExtractFunctions: this is the corrected scan. It searches every line from its start, and reads each pattern's own groups. It does not promise the source's records; `FunctionScan.ExtractFunctionsAsWritten` models those.
- FunctionScan.ReportedAsWritten: the per-line iff is stated only for lines without a line terminator. After `split("\n")`, every line of a CRLF file still ends in `\r`, so for those files only `FunctionScan.ScanAsWrittenFound`, which holds for any lines, describes the records.

## Findings

| source | as written | input that shows it | evidently intended | confidence | as-written member | corrected member |
|---|---|---|---|---|---|---|
| src/core/CodeAnalyzer.ts:370-373 | F1: the closing line ` */` of a JSDoc block trims to `*/`, starts with `*`, and is read as the comment text `/` | `/**`, ` * Adds.`, ` */`, `function add(): number` gives the description `Adds. /` | the closing line is not part of the text: the description is `Adds.` | high, not executed | Analyzer.DescriptionAsWrittenOfBlock | Analyzer.DescriptionOfBlock |
| src/core/CodeAnalyzer.ts:68-82 | F2: the `/gm` patterns keep `lastIndex` across lines, so after a match the next line is searched from past its start, where `^` cannot match | `function a(): void` then `function b(): void` on the next line gives only `a` | every line is searched from its start: both functions are found | high, not executed | ScanFindings.SecondDeclarationMissedAsWritten | ScanFindings.BothDeclarationsFound |
| src/core/CodeAnalyzer.ts:85-87 | F3: the record is read from groups 1 to 6 as the regular pattern numbers them (name `match[3] \|\| match[2]`, parameters `match[4] \|\| match[5]`, return type `match[5] \|\| match[6]`), but the method-like pattern's groups are `async`, name, parameters and return type | `run(x: number): void` is recorded with name `x: number` and a parameter parsed from `void` | the name, parameters and return type come from the method-like pattern's own groups | high, not executed | ScanFindings.SignatureMisreadAsWritten | ScanFindings.SignatureRead |
| src/core/CodeAnalyzer.ts:86 | F4: `match[4] \|\| match[5]` falls back to the return type when the parameter group is empty | `function f(): string` is recorded with one parameter `string` of type `any` | a function without parameters has none | high, not executed | ScanFindings.ParameterlessMisreadAsWritten | ScanFindings.ParameterlessRead |
| src/core/SemanticSearch.ts:82-93 | F5: a failed batch adds no vectors, yet vectors are paired with texts by their position in the collected list | 150 chunks, first call throws, second answers: the vector of chunk 100 is stored with the text and line of chunk 0 | each vector is stored with the chunk it was computed for, and the chunks of a failed batch are left out | high, not executed | Batching.MisalignedAsWritten | Batching.RecordsPerChunk |
| src/core/CodeAnalyzer.ts:72-87 | F6: the arrow pattern's groups are export, keyword, name, `async`, parameters and return type, but they are read as the regular pattern numbers them: `isAsync` reads the keyword group, the parameters read the `async` group first, and the return type reads the parameter text first | `export const f = async (x: number): Promise<void> => {}` is recorded as not async, with the one parameter `async` of type `any`, and with return type `x: number` | the record is async, has the parameter `x: number` and the return type `Promise<void>` | high, not executed | ScanFindings.ArrowMisreadAsWritten | ScanFindings.ArrowRead |
