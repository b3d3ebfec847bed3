# zen: a verified model of the change detector's core

zen decides whether a C++ build target must be rebuilt after its sources
changed. It ignores changes to comments and whitespace, and it ignores
changes to declarations that no definition file uses. This project models
the core of `zen.py` in Dafny, as a pipeline:

1. **Canonicaliser** (`canonical.dfy`, `text.dfy`).
   - `SourceContent.strip_comments` removes `/* */` and `//` comments line by line, carrying the block-comment flag from line to line.
   - `Line.stripped` collapses whitespace.
   - `stripped_hash`, `iter_hash` and `join_hashes` fingerprint the result.
2. **Positions and chunks** (`position.dfy`, `chunks.dfy`).
   - `SourcePos` is a (line, col) pair, with index normalisation and `+`/`-` over the flattened lines of a file.
   - `Chunk` is a span between two positions. It has length, indexing, slicing, `strip`, `tokenize`, `line_strings` and `content_hash`.
3. **Scanners** (`scanners.dfy`): `find_quote_end`, `find_pair`, `find_in_scope` and `scope_tokens`.
4. **Segmenter** (`segmenter.dfy`, `segmenter_facts.dfy`, `components.dfy`).
   - `Component.create` carves one declaration, statement, definition, block or directive off a chunk.
   - `Block.sub_components` repeats it.
   - Also covered: the name extractors, `construct_content`, `update_content` and `used_constructs`.
5. **Construct graph and rebuild decision** (`graph.dfy`, `decision.dfy`, `targets.dfy`, `tags.dfy`).
   - `ConstructGraph.get`/`add`, `Construct.content_hash`/`dependencies`.
   - The memoised `is_changed` of `_has_used_content_change`.
   - The status rules of `CompileObject.meditate` and `Target.meditate`.
   - `Target.type_from_path`, `lib_dependencies` and `parse_tags`.

A file is a `seq<string>` of lines. Each line but the last ends in
`'\n'`. A position is a `Pos(line, col)`; `Offset` and `PosAt` map it to a
flat character offset and back, and each position operation is proved
against that flat view. `md5` is a parameter `string -> Digest` (a natural
below 2^128), and so is the hex digest. The `[\w0-9]+` regex becomes the
maximal runs of ASCII letters, digits and `_`. Python exceptions become
`Err(e)` of a `Result`. The imperative parts of zen.py are methods proved
equal to specification functions:

- the loops of `strip_comments`, `find_pair`, `find_quote_end`, `find_in_scope`, `scope_tokens`, `join_hashes`, `SourcePos.__add__`/`__sub__`, `Component.create` and `Block.sub_components`;
- the mutable objects `SourceContent`, `Construct`, `ConstructGraph`, the `is_changed` memo, `CompileObject` and `Target`, which are classes.

Several functions take a flag `corrected`. With `corrected == false` they
follow zen.py as written; with `corrected == true` they follow the
behaviour the code evidently intends (see "## Findings"). Every property
below that takes the flag holds for both readings unless it names one.

## Model

| member | source | states |
|---|---|---|
| Canonical.ReadLinesConcat | zen.py:812-818 | Splitting a text into lines loses nothing: the lines concatenate back to the text. |
| Canonical.ReadLinesShape | zen.py:812-818 | Each line but the last ends in '\n' and no line holds '\n' anywhere else. |
| Canonical.UnblockLine | zen.py:727-745 | The inner while-loop of strip_comments returns the pieces outside block comments and whether a block comment is still open at the end of the line. |
| Canonical.UncommentOne | zen.py:727-754 | One line of strip_comments: its uncommented text and the block-comment flag it hands to the next line. |
| Canonical.UncommentAll | zen.py:718-755 | The loop of strip_comments over all lines, with the flag carried from one line to the next, gives the uncommented lines. |
| Canonical.UncommentLinesAppend | zen.py:725-754 | Uncommenting a + b is uncommenting a, then b starting from the flag a leaves open. |
| Canonical.UncommentedClean | zen.py:730-751 | An uncommented line holds no "//" and no "/*". |
| Canonical.UncommentLineCommentFree | zen.py:730-751 | A line with neither "/*" nor "//", outside a block comment, is kept as is and leaves no block open. |
| Canonical.UncommentInsideBlock | zen.py:731-736 | Inside a block comment, a line without "*/" loses everything but its final '\n', and the block stays open. |
| Canonical.UncommentLinesIdempotent | zen.py:718-755 | Uncommenting uncommented lines again changes nothing. |
| Canonical.UncommentLineNewline | zen.py:752-753 | A raw line that ends in '\n' keeps its '\n' after uncommenting. |
| Canonical.UncommentLinesNewline | zen.py:726-754 | Uncommenting keeps the number of lines and every line's final '\n'. |
| Canonical.SourceContent.constructor | zen.py:706-716 | A new SourceContent holds the file's lines, has not stripped comments and has no cached hash. |
| Canonical.SourceContent.StripComments | zen.py:718-755 | A second call raises ValueError and changes nothing; the first stores the uncommented lines and sets the flag. |
| Canonical.SourceContent.StrippedHash | zen.py:784-798 | Strips comments if needed, then returns and caches the stripped hash of the file's lines. |
| Canonical.StrippedKeepsWords | zen.py:858-870 | Line.stripped keeps the words of the line, in order, and keeps a final '\n' exactly when the line had one. |
| Canonical.StrippedSameIff | zen.py:858-870 | Two lines strip to the same text exactly when they have the same words and agree on a final '\n'. |
| Canonical.StrippedIdempotent | zen.py:858-870 | Stripping a stripped line changes nothing. |
| Canonical.StrippedShape | zen.py:858-870 | A stripped line has no leading, trailing or doubled whitespace, apart from one final '\n'. |
| Canonical.StripOfStripped | zen.py:793-795 | str.strip of a stripped line is its words joined by single spaces. |
| Canonical.StrippedBlankIff | zen.py:793-795 | A line strips to the text "\n" exactly when it has no words and ends in '\n'. |
| Canonical.JoinHashes | zen.py:1554-1565 | The loop of join_hashes computes the base-31 fold modulo 2^127 - 1 seeded with 1; the result lies in [0, 2^127 - 1), or is 1 for no hashes. |
| Canonical.JoinedHashRange | zen.py:1554-1565 | join_hashes of nothing is 1, and of any hashes lies in [0, 2^127 - 1). |
| Canonical.JoinedPairSwap | zen.py:1554-1565 | Swapping two hashes changes the joined hash unless 30 times their difference is a multiple of 2^127 - 1; close distinct hashes always join differently when swapped. |
| Canonical.Digests | zen.py:1567-1590 | iter_hash hashes each string with md5, in order. |
| Canonical.HashedLineWords | zen.py:790-795 | stripped_hash feeds nothing for a blank line and otherwise the line's words joined by single spaces. |
| Canonical.HashedLinesAppend | zen.py:790-795 | What stripped_hash feeds for a + b is what it feeds for a, then for b. |
| Canonical.BlankLineInvariance | zen.py:790-795 | Inserting a whitespace-only line anywhere in a file leaves its stripped hash unchanged. |
| Canonical.RespacingInvariance | zen.py:858-870 | Re-spacing a comment-free line (same words, same final '\n') leaves the file's stripped hash unchanged. |
| Canonical.LineCommentEditInvariance | zen.py:745-751 | Editing the text of a line comment leaves the stripped hash unchanged, while neither version holds "/*" or "*/". |
| Canonical.BlockCommentEditInvariance | zen.py:730-745 | Editing the text of a one-line block comment, outside a block comment, leaves the stripped hash unchanged, whatever follows it on the line. |
| Canonical.CommentedOpenerHidesNextLine | zen.py:730-751 | As written, a "/*" after "//" opens a block comment, so any edit to the next line (one without "*/") leaves the stripped hash unchanged. |
| Canonical.LineCommentCorrected | zen.py:730-751 | As intended, a line comment's text does not matter and leaves no block comment open, even when it holds "/*". |
| Canonical.LineCommentEditCorrected | zen.py:730-751 | As intended, editing a line comment's text, "/*" included, leaves the stripped hash unchanged. |
| Canonical.UncommentLinesCorrectedPlain | zen.py:730-751 | On lines without "//", the intended strip_comments agrees with the one as written. |
| Position.PosAtSpec | zen.py:914-942 | The position at a flat offset is normal (on an existing line, at most at its end, at the end only on the last line) and has that offset. |
| Position.OffsetPosAt | zen.py:914-942 | Every normal position is the position at its own offset: positions and offsets are in one-to-one correspondence. |
| Position.OrderIff | zen.py:1023-1043 | Positions compare by (line, col) exactly as their offsets compare, and are equal exactly when their offsets are. |
| Position.MakePosSpec | zen.py:914-942 | SourcePos succeeds exactly when the line and column, negative ones counted from the end, are in range; it then names that line's start plus the column. Also zen.py:1053-1097. |
| Position.MakePosAt | zen.py:914-942 | A column within line i, its end included, names the offset of the line's start plus the column. |
| Position.Add | zen.py:944-976 | p + n is the position n characters later over the flattened lines, or ValueError past the end; a negative n moves back. |
| Position.Sub | zen.py:978-1013 | p - n is the position n characters earlier, or ValueError before the start; a negative n moves forward. |
| Position.ShiftBack | zen.py:944-1013 | Moving n forward and then n back returns to the same position. |
| Position.NextLinePos | zen.py:1045-1051 | Succeeds exactly when a next line exists, and then gives column 0 of it. |
| Chunks.NewChunk | zen.py:1110-1136 | A chunk is made exactly when its start is not after its end. |
| Chunks.WholeChunk | zen.py:800-810 | The chunk of a whole file spans every character, and exists exactly when the file has a line. Also zen.py:1110-1136. |
| Chunks.Len | zen.py:1138-1143 | The length of a chunk is the number of characters it holds. |
| Chunks.Str | zen.py:1489-1506 | str(chunk) is the text between its start and end offsets. |
| Chunks.CharAtPos | zen.py:1430-1451 | Indexing by a position gives the character there exactly when it lies in the chunk, else IndexError. |
| Chunks.CharAtIndex | zen.py:1453-1487 | chunk[i] is the i-th character of the chunk, with a negative i counted from the end, or IndexError out of range. |
| Chunks.Slice | zen.py:1412-1428 | chunk[a:b] is the sub-chunk between the resolved bounds when they are in order, else ValueError. |
| Chunks.ChunkPos | zen.py:1184-1201 | Chunk.pos with 'end' names the position just past the given line's last character; other keywords raise ValueError. |
| Chunks.Tokenize | zen.py:1216-1234 | The tokens of a chunk are the maximal runs of word characters in its text. |
| Chunks.StrippedChunkErr | zen.py:1310-1328 | strip fails exactly when the chunk is empty or all whitespace. |
| Chunks.StrippedChunkInside | zen.py:1310-1328 | A stripped chunk lies inside the original, what it drops at either end is whitespace, and it starts and ends with a non-whitespace character. |
| Chunks.StrippedChunkIdempotent | zen.py:1310-1328 | Stripping a stripped chunk gives the same chunk. |
| Chunks.Strip | zen.py:1310-1328 | The two scan loops of strip give the stripped chunk. |
| Chunks.LineStrings | zen.py:1369-1381 | line_strings yields the chunk's text cut after each '\n'; text after the last '\n' is not yielded. |
| Chunks.OneLineUnhashed | zen.py:1359-1381 | As written, a chunk without '\n' (a one-line declaration) has content hash 1, whatever its text. |
| Chunks.ContentHashAsWrittenIgnoresTail | zen.py:1359-1381 | As written, two chunks that differ only after their last '\n' have the same content hash. |
| Chunks.LastLineUnhashed | zen.py:1369-1381 | A concrete pair of different texts, "a\nx" and "a\ny", whose line_strings are equal. |
| Chunks.OneLineHashed | zen.py:1359-1366 | As intended, a non-empty one-line chunk hashes to join_hashes of the md5 of its text. |
| Chunks.ChompedLinesJoin | zen.py:1359-1366 | The lines content_hash hashes, as intended, join with '\n' back to the chunk's text without its final '\n'. |
| Chunks.ContentHashInputsDetermine | zen.py:1359-1366 | As intended, two texts without a final '\n' that feed the same strings to iter_hash are equal. |
| Scanners.CloseOf | zen.py:75-80 | The closing bracket of an opening one differs from it and is neither an opener nor a quote. |
| Scanners.FindQuoteEnd | zen.py:1281-1308 | The loop of find_quote_end gives the position of the matching unescaped quote, None when the chunk ends first, or ValueError at an unescaped newline. |
| Scanners.QuoteEndIs | zen.py:1281-1308 | find_quote_end at a quote scans from the next character for the same quote. |
| Scanners.QuoteScanPlain | zen.py:1281-1308 | Without backslashes, the quote end is the first same quote; nothing before it is that quote or a newline. |
| Scanners.FindPair | zen.py:1236-1279 | The loop of find_pair gives the position the pair scan specifies, with its errors. |
| Scanners.PairScanBalanced | zen.py:1256-1279 | find_pair's answer is the first position after the opener where that bracket kind balances, with quoted text skipped; ParsingException means it never balances in the chunk. |
| Scanners.PairScanSemicolon | zen.py:1273-1278 | With ';' disallowed, find_pair raises ParsingException exactly when a ';' outside quotes comes before the closing bracket; otherwise the answer is the same. |
| Scanners.BalanceCounts | zen.py:1266-1272 | The depth find_pair tracks is the count of that kind's openers minus its closers; other bracket kinds do not count. |
| Scanners.MaskedPlain | zen.py:1277-1278 | Text without quotes is scanned as it stands. |
| Scanners.FindInScope | zen.py:2246-2280 | The loop of find_in_scope gives the offset the scope search specifies, or KeyError. |
| Scanners.ScopeFindSound | zen.py:2246-2280 | A match find_in_scope reports lies in the chunk and holds the substring there. |
| Scanners.ScopeFindPlain | zen.py:2246-2280 | Without brackets or quotes, find_in_scope finds the first occurrence of the substring, and KeyError means there is none. |
| Scanners.ScopeTokens | zen.py:2282-2309 | The loop of scope_tokens gives the tokens of the chunk's top-level text. |
| Scanners.ScopeTextTop | zen.py:2282-2309 | The top-level text scope_tokens keeps holds no bracket and no quote. |
| Scanners.ScopeTextPlain | zen.py:2282-2309 | Text without brackets or quotes is kept whole. |
| Scanners.ScopeTokensPlain | zen.py:2282-2309 | Without brackets or quotes, scope_tokens is plain tokenize. |
| Segmenter.DirectiveEnd | zen.py:1944-1974 | A directive ends at the end of its first line that is not continued by a backslash; running out of lines raises ParsingException. |
| Segmenter.ClassEnd | zen.py:1704-1720 | After a class body only whitespace may come before the ';' that ends it; anything else raises ParsingException. |
| Segmenter.CreateScan | zen.py:1631-1751 | What the loop of create carves starts where it starts and stays in the chunk, except a directive, which may run past its end. |
| Segmenter.Create | zen.py:1631-1751 | A component create returns is a non-empty chunk inside the given one, a directive excepted. |
| Segmenter.CreateCarve | zen.py:1631-1751 | The imperative loop of create carves what the scan specifies. |
| Segmenter.CreateComponent | zen.py:1631-1751 | Component.create, the loop then the chosen class's constructor, gives the specified component or exception. |
| Segmenter.Build | zen.py:1609-1627 | Constructing a component strips its chunk; the result has the chosen class and lies inside the chunk. |
| Segmenter.NewComponent | zen.py:1609-1627 | The imperative constructors build the specified component. |
| Segmenter.ClassComponent | zen.py:2133-2151 | CppClassDefinition's constructor finds the inner block without the ';', the prefix and the name. |
| Segmenter.FindBlock | zen.py:1926-1929 | _find_block starts at the first '{' in scope and runs to the chunk's end (one before it for a class). Also zen.py:2077-2079, zen.py:2144-2147, zen.py:2217-2220. |
| Segmenter.FunctionName | zen.py:2010-2013 | A function's name is the last scope token before its first '('. |
| Segmenter.BlockSubComponents | zen.py:1884-1906 | The loop of sub_components gives the specified components: after an opening '{', before a closing '}', until ComponentCreationError. |
| Segmenter.SubsLoop | zen.py:1896-1905 | The inner loop carves components one after another from the given offset. |
| SegmenterFacts.ScanShape | zen.py:1631-1751 | Whatever create carves has the shape of its class (closing character, directive start) and a class its scope admits. |
| Segmenter.InnerChunk | zen.py:1926-1929 | The inner block of a namespace, class, function or control block starts with '{'. Also zen.py:2144-2147. |
| SegmenterFacts.CreateShape | zen.py:1631-1751 | create returns a well-built component of a class its scope admits, closed by the right character, after nothing but whitespace (a directive excepted). |
| SegmenterFacts.SubComponentsLaid | zen.py:1884-1906 | sub_components lays its components out from after the block's '{'. |
| SegmenterFacts.SubsFromLaid | zen.py:1896-1905 | The sub_components loop lays out its components one after another. |
| SegmenterFacts.LaidOrdered | zen.py:1884-1906 | The components of a block are well built, admitted in its scope, in order and do not overlap. |
| Components.BlockWalk | zen.py:1845-1853 | Every component recursive_components yields is well built. |
| Components.RecursiveAll | zen.py:1845-1853 | The components of the walk lie after the starting offset, so the recursion ends. |
| Components.UpdateContent | zen.py:2311-2328 | The loop of update_content gives the merge of the two maps. |
| Components.LookupMerge | zen.py:2311-2328 | In the merged map, each name's list is the first map's list followed by the second's. |
| Components.MergeAssoc | zen.py:2311-2328 | Merging is associative, so the order of grouping does not matter. |
| Components.ConstructContentNames | zen.py:1813-1820 | construct_content gives nothing for classes that carry no content; a declaration gives itself under its name; a definition gives exactly its name; a class gives its members under its name. Also zen.py:2015-2017, zen.py:2091-2096, zen.py:2163-2169. |
| Components.ConstructContentOf | zen.py:1813-1820 | The imperative construct_content gives the specified map. Also zen.py:2091-2096, zen.py:2163-2169. |
| Components.OwnUsed | zen.py:1798-1810 | A component uses only names of the graph that are among its own tokens, and none when none of its tokens is a name. |
| Components.UsedConstructs | zen.py:1798-1810 | used_constructs, by the specified recursion, gives the used names or the exception. Also zen.py:2081-2088, zen.py:2153-2160. |
| Components.UsedByRestrict | zen.py:1798-1810 | Asking about fewer names gives the uses restricted to them. |
| Components.UsedCoversInner | zen.py:2081-2088 | A definition uses everything its inner components use. Also zen.py:2153-2160. |
| Components.ControlBlockBodyIgnored | zen.py:2199-2231 | As written, a control block uses only tokens of its prefix; its body is never looked at. Also zen.py:1798-1810. |
| Components.ControlBlockBodyCounted | zen.py:2199-2231 | As intended, a control block uses everything the components of its body use. |
| Graph.DirectUsesMeaning | zen.py:2473-2489 | The names a construct's content uses are exactly those one of its components uses. |
| Graph.Construct.constructor | zen.py:2438-2442 | A new construct has its name, the graph, no content and no cached hash. |
| Graph.Construct.AddContent | zen.py:2444-2452 | add_content appends the components and leaves the cached hash alone. |
| Graph.Construct.ContentHash | zen.py:2454-2471 | content_hash hashes each content component's chunk, joins those hashes in order, and caches the result: later calls return the cached value. |
| Graph.Construct.DepSearch | zen.py:2504-2526 | _dep_search returns the visited set unchanged for a visited construct, and otherwise the constructs its content uses added to it. |
| Graph.Construct.Dependencies | zen.py:2473-2489 | dependencies raises ValueError outside a graph; in one, it is the graph's constructs the content uses, other than itself. |
| Graph.Construct.RecursiveDependencies | zen.py:2491-2502 | recursive_dependencies raises ValueError outside a graph; in one, it is the specified set or KeyError. |
| Graph.DependenciesMeaning | zen.py:2473-2489 | A construct depends on d exactly when d is another construct of the graph whose name a content component uses. |
| Graph.RecursiveIsDirect | zen.py:2491-2526 | recursive_dependencies equals dependencies, since a construct is marked visited before its search; it raises KeyError exactly when the construct does not use itself. |
| Graph.ConstructGraph.constructor | zen.py:2363-2367 | A new graph is empty. |
| Graph.ConstructGraph.Item | zen.py:2369-2376 | graph[name] succeeds exactly for the names that have content; the construct it gives has that name, belongs to this graph, and holds that name's content. Otherwise it raises KeyError. |
| Graph.ConstructGraph.Get | zen.py:2392-2410 | get returns the existing construct; a missing one is KeyError, or with create a fresh empty construct added under the name. |
| Graph.ConstructGraph.Add | zen.py:2412-2422 | add puts a construct not yet in a graph under its name and links it; one already in a graph raises ValueError and nothing changes. |
| Graph.DeclarationStep | zen.py:2015-2017 | In the create_constructs walk, a function declaration whose name raises ends the walk with that exception. Otherwise the declaration is appended as the last part under its name, and no other name's content changes. Also zen.py:562-574. |
| Graph.FileContentNames | zen.py:562-574 | The names a file contributes are those the construct_content of its components gives. Also zen.py:1813-1820. |
| Graph.AddFile | zen.py:562-574 | Adding a file's components to the graph gives the specified content per name, or the walk's exception. |
| Graph.CreateConstructs | zen.py:562-574 | create_constructs builds a fresh graph whose content per name is the merge over all files, or raises the first exception. |
| Decision.Max | zen.py:51-58 | max of two statuses is one of them and no smaller than either. |
| Decision.MaxOf | zen.py:51-58 | max of statuses is one of them and no smaller than any. |
| Decision.HeaderByExtension | zen.py:647-653 | A file named with a header extension is a header, whatever its directory and the dots in its stem. Also zen.py:73. |
| Decision.HeaderHasExtension | zen.py:647-653 | A header's path ends in one of the four header extensions, after a non-empty stem. Also zen.py:73. |
| Decision.KeyTextInjective | zen.py:576-584 | construct_hex hashes different texts for different construct names of one object. |
| Decision.RememberSource | zen.py:636-645 | remember changes the hash cache only. |
| Decision.RememberedEditsNotSubstantive | zen.py:624-645 | After remember, adding a blank line to a source leaves it without substantive changes. |
| Decision.ChangedIffStaleReachable | zen.py:503-517 | is_changed is true exactly when the construct or one it depends on, directly or through others, has no cached hash or a different one. |
| Decision.ChangedRankFree | zen.py:503-517 | The answer of is_changed does not depend on the ranking used to prove it terminates. |
| Decision.RememberedNothingChanged | zen.py:503-517 | When the cache holds every construct's current hash, no construct is changed. Also zen.py:460-476. |
| Decision.CycleUnranked | zen.py:503-517 | A dependency walk that returns to its start admits no ranking, so is_changed as written never ends on it. |
| Decision.MutualUseUnranked | zen.py:503-517 | Two constructs that use each other admit no ranking. |
| Decision.ClosureIsReach | zen.py:503-517 | On a graph without cycles, the reachability closure is what the ranked recursion reaches. |
| Decision.ChangedCorrectedAgrees | zen.py:503-517 | The intended is_changed, defined on every graph, agrees with is_changed as written wherever that terminates. |
| Decision.MutualUseChangedCorrected | zen.py:503-517 | As intended, for two constructs that use each other, either is changed exactly when one of them is stale. |
| Decision.ChangeCheck.constructor | zen.py:496-497 | A check starts with an empty change cache over the built graph. |
| Decision.ChangeCheck.IsChanged | zen.py:503-517 | The memoised is_changed returns the specified answer and records it in change_cache. Entries already in change_cache stay, and a cache hit leaves change_cache as it was. |
| Decision.ChangeCheck.Unsaved | zen.py:499-515 | The cache lookup is KeyError or a hash different from the construct's content hash exactly when the construct is stale. |
| Decision.ScanSources | zen.py:522-532 | The loop over the sources skips headers, and gives true at a substantive change or at a component that uses a changed construct. |
| Decision.AnyChanged | zen.py:528-531 | The loop over a component's used constructs is true exactly when one of them is changed, and it keeps every entry already in change_cache. |
| Decision.ObjectOutcomeCases | zen.py:439-458 | An object is CHANGED exactly when its sources are newer, changed in code and a used construct changed or parsing failed; NO_CHANGE exactly when no source is newer; other exceptions escape. |
| Decision.CompileObject.constructor | zen.py:419-437 | A new object is UNCHECKED and not touched. |
| Decision.CompileObject.HasCodeChanges | zen.py:478-488 | _has_code_changes is true exactly when some source has substantive changes. |
| Decision.CompileObject.HasUsedContentChange | zen.py:490-532 | _has_used_content_change gives the specified answer or exception. |
| Decision.CompileObject.SourcesModifiedNow | zen.py:550-560 | sources_modified is true when the object file is missing or a source is no older. |
| Decision.CompileObject.Meditate | zen.py:439-458 | meditate sets the status the outcome rules give and touches the object exactly on MINOR_CHANGE; another exception leaves the state unchanged. |
| Tags.ParsedTagsClean | zen.py:2330-2356 | Every tag parse_tags returns is a non-empty, stripped text without ',' or parentheses. |
| Tags.TagCommentRoundTrip | zen.py:2330-2356 | Tags written as "// ZEN(a, b, ...)" are read back by parse_tags as the same set. |
| Tags.CommentTags | zen.py:2330-2356 | The tags of "// ZEN(body)" are those of body's comma-separated pieces. |
| Tags.CodeBeforeCommentIgnored | zen.py:2330-2356 | Code before the "//" (without a '/') does not change the tags. |
| Targets.SplitExtShape | zen.py:263-275 | The extension taken from a path is empty, or a '.' then no further '.' or '/', and ends the path. |
| Targets.TypeFromPathOf | zen.py:263-275 | A name ending in ".a" is a static library and one ending in ".so" a shared library. |
| Targets.LibTypeByExtension | zen.py:263-275 | A path is a library type exactly when it is a name followed by ".a" or ".so". |
| Targets.Target.LibDependencies | zen.py:377-394 | lib_dependencies gives the specified targets, or ValueError for a library-typed dependency that names no target. |
| Targets.LibsMeaning | zen.py:377-394 | lib_dependencies succeeds exactly when every library dependency is a known target, and holds exactly those targets. |
| Targets.SetMaxBounds | zen.py:210-242 | The max of a non-empty set of statuses is one of them and no smaller than any. |
| Targets.TargetStatusCases | zen.py:229-238 | A target is CHANGED exactly when its file is missing or some part is CHANGED; NO_CHANGE exactly when all parts are; else MINOR_CHANGE. |
| Targets.TargetStatusAtLeast | zen.py:229-238 | A target's status is no smaller than that of any object, library or other dependency. |
| Targets.SettledUnknown | zen.py:229-238 | As written, a target of unknown type raises AttributeError; as intended, it is CHANGED; for other types both readings agree. |
| Targets.Target.Settle | zen.py:229-242 | The final step sets the settled status and touches the target exactly on MINOR_CHANGE of a known type; an exception leaves the state unchanged. |
| Targets.Target.Meditate | zen.py:198-242 | An already meditated target returns at once. Otherwise its libraries and objects are meditated first, and the status is the settled one. Each of its objects ends with the status CompileObject.meditate gives it, and avoid_build has run on that object exactly when that status is MINOR_CHANGE or had run before. Only targets ranked at or below it, and their objects, change. As written, an unknown-type target raises. |
| Targets.Target.MeditateObjects | zen.py:222-227 | Each object gets the status CompileObject.meditate settles on, and avoid_build runs on it exactly on MINOR_CHANGE; the result is the largest object status. An exception is the one some object's meditate raises. Also zen.py:439-458. |
| Targets.MeditateAll | zen.py:108-114 | Context only: BuildDir.meditate leaves every target it meditates with a status. |

## Left out

- File I/O and build-tree discovery are not modelled: `BuildDir._find_targets`, `_find_sources`, the `hash_cache` JSON load and save, `Target._find_objects`, `_identify_target` and `_find_dependencies`. A target's type, file time, dependencies and objects are constructor parameters.
- `avoid_build` (a `touch` through a subprocess) becomes the `touched` flag.
- Modification times (`m_time`, `stat`) are integers given to the model, and `other_status` takes them as a function.
- md5 and its hex digest are parameters of the model (`Env`): nothing about md5 itself is modelled or proved.
- The `[\w0-9]+` regex is modelled as maximal runs of ASCII letters, digits and `_`. Unicode word characters are not covered.
- `_lines_from_f` reads in text mode (zen.py:816-818): it decodes the file and turns "\r\n" and a lone '\r' into '\n'. `_lines_from_str` uses `splitlines`. The model splits a text on '\n' only, so a file with '\r' line ends is one line in the model and many in zen.
- `Block._sub_components` keeps the partial list it built when an exception escapes; the model returns only the exception.
- SourceFile and SourceContent objects are shared between the objects and targets that use them. The model gives each object its own sources, so it does not capture that sharing or the caches shared through it.
- The `SourceFile` singleton cache (zen.py:599-622) is dropped: each source is a value.
- `Component.tags` (zen.py:1763-1796) is not modelled; `parse_tags`, which it calls, is.
- `Chunk.lines`, `index_range`, `bounds_description`, `__repr__` and `Component.exposed_content` are not modelled; nothing in the core's decision depends on them.
- `verbose`, `main` and the argument parsing are not modelled.
- Three checks in the segmenter cannot fire on the model's input and are not modelled: the ValueError of `pos += 1` inside `create`, the ValueError of `PreprocessorComponent.create` when its chunk does not start with '#', and the ValueError of `CppClassDefinition` when its block start is after its end.
- Components.ControlBlockBodyCounted: the intended reading counts a control block's body, but it still reads that body in class scope, as zen.py:2218-2220 does. So a call statement such as `g();` in the body is a member function declaration named g (zen.py:1672-1677), and `used_constructs` drops a component's own name (zen.py:1808-1810). A call in a control block's body therefore gives the enclosing function no dependency on the callee, in either reading. Reading the body in the enclosing scope would change the segmenter and is not modelled.
- Decision.CompileObject.Meditate: requires that the whole construct graph resolves and is ranked (`Walkable`). zen.py walks only the constructs reachable from the object's definition files, so an unreached cycle, or an unreached construct whose uses raise, is excluded by the model although zen handles it.
- Decision.CompileObject.HasUsedContentChange: requires `Walkable` for the same reason, with the same gap.
- `BuildDir.__init__` (zen.py:101-104) indexes every target by `file_path.absolute()`, which raises AttributeError for a target of unknown type before `Target.meditate` runs. The build directory is not modelled, so that earlier failure is not either; `Targets.SettledUnknown` states the failure at `Target.meditate`.
- Decision.UsedChange: is defined only under `Walkable`, with the same gap. A reachable cycle is the source bug listed under "## Findings". `Walkable` also excludes a reached construct whose uses raise. On a ParsingException there zen makes the object CHANGED (zen.py:451-458), and the model does not cover that case.
- Targets.Target.Meditate: requires `Organised`, in which each library sits on a lower level than the targets that use it. This stands in for zen's unguarded recursion over `lib_dependencies` (zen.py:215-218), so a library cycle, on which zen would raise RecursionError, is not modelled.

## Findings

| source | as written | input that shows it | evidently intended | confidence | as-written member | corrected member |
|---|---|---|---|---|---|---|
| zen.py:1359-1381 | `content_hash` hashes only the strings `line_strings` yields, and `line_strings` yields only text that ends in '\n'. A chunk's text after its last '\n' is never hashed. | A one-line declaration `int f(int x);` edited to `int f(long x);`: the construct's content hash stays 1, so the object is not rebuilt. | Every line of the chunk is hashed, the last one included. | not executed | Chunks.OneLineUnhashed, Chunks.ContentHashAsWrittenIgnoresTail, Chunks.LastLineUnhashed | Chunks.OneLineHashed, Chunks.ContentHashInputsDetermine |
| zen.py:2199-2231 | `ControlBlock` does not override `used_constructs` (zen.py:1798-1810), and its `_find_tokens` is the prefix's tokens only; only function and class definitions descend into their bodies (zen.py:2081-2088). A definition's uses therefore stop at a control block's body. | `class T {}; void f() { if (x) { T y; } }`: the statement `T y;` uses T, but f gets no dependency on T. | The uses inside the control block's body count, as they do for a function body: f depends on T. A call statement such as `g();` in the body still gives f no dependency on g, as "## Left out" says. | not executed | Components.ControlBlockBodyIgnored | Components.ControlBlockBodyCounted |
| zen.py:229-238 | For a target of unknown type the path is None, so `self.file_path.exists()` raises AttributeError. The `!= TargetType.UNKNOWN` guard after it is dead code. In the program `BuildDir.__init__` (zen.py:101-104) calls `file_path.absolute()` on every target first and raises the same AttributeError there; the intended reading also needs `targets_by_path` to skip targets without a path. | A target whose type `_identify_target` cannot tell. | The target is CHANGED and never touched. | not executed | Targets.SettledUnknown, Targets.Target.Meditate | Targets.SettledUnknown |
| zen.py:730-751 | `strip_comments` looks for "/*" before it cuts at "//", so an opener inside a line comment opens a block comment. | `int a; // see /* here` followed by the line `int b;`: `int b;` vanishes from the stripped hash. | Text after "//" is comment and opens nothing. | not executed | Canonical.CommentedOpenerHidesNextLine | Canonical.LineCommentCorrected, Canonical.LineCommentEditCorrected |
| zen.py:503-517 | `is_changed` recurses into a construct's dependencies before it records an answer, so a dependency cycle recurses until RecursionError. | `class A { B* b; }; class B { A* a; };` in a header used by a compiled source. | A construct is changed when it, or anything it reaches, is stale; a cycle is walked once. | not executed | Decision.CycleUnranked, Decision.MutualUseUnranked | Decision.ChangedCorrected, Decision.ChangedCorrectedAgrees, Decision.MutualUseChangedCorrected |
