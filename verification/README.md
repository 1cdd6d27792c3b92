# In-memory diff output, tree-delta validation and the ctype tables

This project models three small pieces of an early Subversion tree in Dafny and proves properties about them.

- **In-memory diff output** (`libsvn_diff/diff_memory.c`) has three parts:
  - A tokenizer splits each text into line tokens. Each token carries its `\n`, `\r` or `\r\n` terminator.
  - A token source serves those tokens one by one to the alignment primitive, together with the comparison the primitive uses.
  - Two writers turn a finished alignment into output:
    - the unified writer builds hunks with a fixed amount of context and writes each hunk with its `@@ -a,b +c,d @@` header. Its change callback is modelled twice: as the code writes it, which the writer's entry point uses, and with the leading-context fix described under Findings, about which the hunk invariant is proved;
    - the merge writer copies common text, takes one-sided edits, and writes conflict blocks between markers. The marker line ending is taken from the first modified line.
- **Tree-delta validation** (`libsvn_delta/xml_parse.c`) checks an XML tree delta as the parser's callbacks see it. It does this with a stack of frames, one per open element:
  - tags are recognised through the tag map;
  - each new frame is checked against its parent;
  - entry names must be unique within each `<tree-delta>`;
  - a frame without an ancestor path or version inherits it from the enclosing frames;
  - a closing tag must name the innermost open element;
  - the first validation error is sticky.
- **The character tables** are generated by `libsvn_subr/genctype.py`: the class flags of every byte, and the case-fold byte. They are modelled as the generator writes them.

## Modules

| file | module | contents |
|---|---|---|
| `wrappers.dfy` | `Wrappers` | `Option`, `Result` |
| `bytes.dfy` | `Bytes` | bytes, ASCII literals, concatenation of token lists, decimal rendering and parsing |
| `tokens.dfy` | `Tokens` | the line tokenizer, the token source and the token comparison |
| `alignment.dfy` | `Alignment` | the ranges of a finished alignment, which are the writers' input |
| `unified.dfy` | `Unified` | the unified hunk writer |
| `merge.dfy` | `Merge` | the merge writer, line-ending detection and the markers |
| `treedelta.dfy` | `TreeDelta` | the tree-delta validator |
| `ctype.dfy` | `Ctype` | the class and case-fold tables |

The model is functional:
- A writer is a pure function from one immutable baton to the next.
- The unified writer's output is the list of hunks it writes. Each hunk has its header numbers and its lines, and the bytes are rendered from that list.
- The merge writer's output is the byte sequence it has written.
- The validator is a pure step function over a sequence of parser events.

## Model

| member | source | states |
|---|---|---|
| Tokens.Tokenize | subversion/libsvn_diff/diff_memory.c:202-240 | the tokens concatenate back to the text; every token but the last ends with exactly one terminator, and a `\r\n` is never split; the last token is unterminated exactly when the text is non-empty and does not end in `\r` or `\n`; empty text gives no tokens |
| Tokens.TokenizeIsTheLineSplit | subversion/libsvn_diff/diff_memory.c:202-240 | the tokenizer's split is the only well-formed line split of a text |
| Tokens.DatasourceToIndex | subversion/libsvn_diff/diff_memory.c:64-83 | each of the four datasources has its own slot below 4, and the slot identifies the datasource |
| Tokens.GetNextToken | subversion/libsvn_diff/diff_memory.c:107-134 | hands out the token under the source's cursor and advances only that cursor; the hash is the checksum of the normalized token; an exhausted source yields nothing and changes nothing |
| Tokens.DrainTokens | subversion/libsvn_diff/diff_memory.c:107-134 | repeated fetches until nothing is left yield exactly the source's tokens from the cursor on, in order |
| Tokens.TokenCompare | subversion/libsvn_diff/diff_memory.c:136-163 | only the sign of the result is modelled, as -1, 0 or 1; it is 0 exactly when the normalized tokens are equal; a shorter normalized token orders first |
| Tokens.TokenCompareAntisymmetric | subversion/libsvn_diff/diff_memory.c:136-163 | swapping the two tokens negates the result |
| Tokens.TokenCompareTransitive | subversion/libsvn_diff/diff_memory.c:136-163 | "compares below" is transitive, so the comparison is a strict order |
| Unified.RenderHunkEmpty | subversion/libsvn_diff/diff_memory.c:436-437 | the hunk buffer is empty exactly when no line has been added to it |
| Unified.RangeFieldRoundTrip | subversion/libsvn_diff/diff_memory.c:448-473 | a header field reads back as the start and length it was written from, and it carries `,length` exactly when the length is not 1 |
| Unified.TokenRange | subversion/libsvn_diff/diff_memory.c:368-426 | only the hunk, its counts and the cursor change; the hunk only grows; the cursor never moves back, and it does not move at all for the modified side |
| Unified.TokenRangeEffect | subversion/libsvn_diff/diff_memory.c:368-426 | after clamping to the text and to the cursor, the range's lines are appended with its kind, and the counts grow on the sides the kind belongs to. The no-newline notice follows exactly when the range reaches the end of a text without a final terminator. The cursor moves to the range's end on the original side. An empty range changes nothing |
| Unified.Flush | subversion/libsvn_diff/diff_memory.c:430-483 | flushing with no open hunk changes nothing; otherwise one hunk is written and the buffer and counts are reset |
| Unified.FlushEffect | subversion/libsvn_diff/diff_memory.c:430-483 | the written hunk is the open hunk followed by up to `context` trailing original lines, counted on both sides; each start is 1-based exactly when its side is non-empty |
| Unified.TargetOriginal | subversion/libsvn_diff/diff_memory.c:498-499 | the leading context starts exactly `context` lines before the change, or at the top of the text when the change is nearer to it than that |
| Unified.PrepareHunk | subversion/libsvn_diff/diff_memory.c:502-510 | the hunk is flushed exactly when the cursor plus `context` lies before the context target; a hunk with no lines is re-anchored at the change's leading context, with the modified start shifted by the same amount |
| Unified.EmitChange | subversion/libsvn_diff/diff_memory.c:512-521 | writing a change's context, deleted and inserted lines only adds to the open hunk; nothing already written and neither hunk start changes |
| Unified.OutputDiffModifiedAsWritten | subversion/libsvn_diff/diff_memory.c:486-521 | the callback as written keeps the texts and settings, only extends the prepared hunk, and keeps what is already written. When the context is at least one line, the open hunk ends at the cursor and the change starts at or after it, the hunk again ends at the cursor and gains exactly the change's original lines as deleted lines and its modified lines as inserted lines |
| Unified.OutputDiffModified | subversion/libsvn_diff/diff_memory.c:486-521 | the corrected callback makes the same promises as the callback as written; it differs only in where the leading context of a change that joins the open hunk starts |
| Unified.DiffModifiedBy | subversion/libsvn_diff/diff_memory.c:526-533 | whichever callback the vtable holds, a change at or after the cursor adds exactly its deleted and inserted lines, under the same conditions as the two callbacks |
| Unified.DiffModifiedInOrder | subversion/libsvn_diff/diff_memory.c:512-521 | under either callback, each change adds its context lines, then its deleted lines, then its inserted lines |
| Unified.Pass | subversion/libsvn_diff/diff_memory.c:526-533 | the driver calls back only on modified ranges, so an alignment without one leaves the baton unchanged, and the texts and settings never change |
| Unified.UnifiedHunks | subversion/libsvn_diff/diff_memory.c:576-578 | an alignment without a modified range writes no hunk |
| Unified.OutputUnified | subversion/libsvn_diff/diff_memory.c:536-584 | with the callback as written: a diff without changes writes nothing at all, not even the file header; otherwise the output is the `---`/`+++` header lines followed by the rendered hunks |
| Unified.UnifiedHunksShowEveryChange | subversion/libsvn_diff/diff_memory.c:486-584 | under either callback, with ordered changes and context of at least one line, the deleted lines across the written hunks are, in order, exactly the original lines the modified ranges replace, and the inserted lines exactly the modified lines they bring; any such line means at least one hunk is written |
| Unified.UnifiedHunksFaithful | subversion/libsvn_diff/diff_memory.c:486-584 | with the corrected callback, ordered changes and context of at least one line: every written hunk is non-empty, and its header names exactly the run of original lines its body shows (1-based start, length) and the number of modified lines it shows. The deleted and inserted lines are exactly those of the changes, and an alignment with a modified range writes at least one hunk |
| Unified.AsWrittenSkipsContext | subversion/libsvn_diff/diff_memory.c:498-514 | with context 3, deleting lines 0 and 5 drops line 1 from the hunk as the code writes it, so the written header misstates the body; the corrected callback shows lines 0-5 |
| Unified.AsWrittenDriverSkipsContext | subversion/libsvn_diff/diff_memory.c:536-584 | on the same ten-line text, the whole writer as the code writes it emits one hunk whose header does not match its body, while every hunk the corrected writer emits matches its header |
| Merge.TokenRange | subversion/libsvn_diff/diff_memory.c:607-623 | appends the range's tokens, concatenated, and changes nothing else |
| Merge.CommonModified | subversion/libsvn_diff/diff_memory.c:632-640 | a common, modified-only or both-same range appends its modified text |
| Merge.Latest | subversion/libsvn_diff/diff_memory.c:642-650 | a latest-only range appends its latest text |
| Merge.ConflictBlock | subversion/libsvn_diff/diff_memory.c:668-697 | a conflict writes, in order: the modified marker and text; the original marker and text when asked for; the separator; the latest text; the latest marker |
| Merge.EmitRange | subversion/libsvn_diff/diff_memory.c:659-666 | the vtable: a common, modified-only or both-same range appends its modified text, a latest-only range its latest text, and a conflict a block that opens with the modified marker and closes with the latest marker; nothing else of the baton changes |
| Merge.OutputFrom | subversion/libsvn_diff/diff_memory.c:668-697 | the driver, including the re-output of a resolved conflict's own alignment, only appends to the output and changes nothing else of the baton |
| Merge.DetectEol | subversion/libsvn_diff/diff_memory.c:699-722 | a line ending is found exactly when the token ends in a terminator, and it is that terminator (`\r`, `\n` or `\r\n`) |
| Merge.ChooseEol | subversion/libsvn_diff/diff_memory.c:746-754 | the markers end with the first modified line's terminator, or with the platform's line ending when there is no first line or it has no terminator |
| Merge.MarkerIsOneLine | subversion/libsvn_diff/diff_memory.c:760-787 | a marker, the caller's text or the default followed by the chosen line ending, whose text has no line break is exactly one line when tokenized |
| Merge.MarkersAreLines | subversion/libsvn_diff/diff_memory.c:760-787 | each of the four markers the merge builds is exactly one line when tokenized, as long as the caller's marker texts have no line break |
| Merge.OutputCopiesModified | subversion/libsvn_diff/diff_memory.c:659-666 | ranges that each copy the modified text and cover its tokens in order write exactly those tokens' text |
| Merge.OutputFollowsLatest | subversion/libsvn_diff/diff_memory.c:659-666 | ranges that each take the latest text, or copy modified text equal to it, and cover the latest tokens in order write exactly those tokens' text |
| Merge.OutputMerge | subversion/libsvn_diff/diff_memory.c:724-791 | merging an alignment whose ranges all copy the modified text and cover it in order reproduces the modified text; when the ranges cover the latest text, each taking it or copying modified text equal to it, the merge reproduces the latest text |
| Merge.LatestOnlyEditExample | subversion/libsvn_diff/diff_memory.c:724-787 | a three-line text whose middle line was changed only on the latest side merges to the latest text |
| Merge.ConflictExample | subversion/libsvn_diff/diff_memory.c:668-697 | one conflicting line under the default options merges to the default markers around both sides, each marker ending with the modified text's `\n` |
| TreeDelta.SetTagType | subversion/libsvn_delta/xml_parse.c:437-451 | an unknown element name is reported as an unexpected closing tag |
| TreeDelta.SetTagTypeRecognises | subversion/libsvn_delta/xml_parse.c:87-99 | a name is recognised exactly when it is in the tag map, and the tag found carries that name |
| TreeDelta.TagNamesDistinct | subversion/libsvn_delta/xml_parse.c:87-99 | different tags have different names |
| TreeDelta.NestingIsTheTable | subversion/libsvn_delta/xml_parse.c:330-374 | the else-if chain accepts a frame exactly when its parent is in the allowed-parent table and, unless it is `<file>` or `<dir>`, it has no ancestry; `<set>` is accepted under any parent |
| TreeDelta.CheckDirentNamespace | subversion/libsvn_delta/xml_parse.c:254-298 | only `<add>` and `<replace>` are checked. They pass exactly when the parent has a namespace and the frame has a non-empty name the namespace does not yet hold; the name is then added |
| TreeDelta.DeriveAncestryIsNearest | subversion/libsvn_delta/xml_parse.c:150-228 | only an incomplete `<file>` or `<dir>` changes, and an existing value is never overwritten. The version is the nearest enclosing one; the path is the nearest enclosing ancestor path joined with one name, the first name met walking up from the parent |
| TreeDelta.NewFrame | subversion/libsvn_delta/xml_parse.c:917-947 | a fresh frame has version -1 unless `ver` is given, and a namespace exactly when it is a `<tree-delta>`, which starts empty |
| TreeDelta.StackAppend | subversion/libsvn_delta/xml_parse.c:305-404 | on an empty stack only `<tree-delta>` is accepted; otherwise a frame is pushed exactly when the nesting and the namespace checks pass. The pushed frame has its ancestry derived, and a nesting failure is an unexpected opening tag |
| TreeDelta.CheckRemove | subversion/libsvn_delta/xml_parse.c:414-431 | a closing tag passes exactly when the stack is non-empty and the tag names its youngest frame |
| TreeDelta.HandleStart | subversion/libsvn_delta/xml_parse.c:905-954 | an opening tag that passes pushes exactly one frame of its tag and name and keeps every frame below the parent; an unknown name is an unexpected closing tag; a refused tag keeps the stack |
| TreeDelta.HandleEnd | subversion/libsvn_delta/xml_parse.c:1062-1140 | a closing tag that passes the check pops exactly the youngest frame; otherwise the stack is kept and the error is recorded |
| TreeDelta.HandleData | subversion/libsvn_delta/xml_parse.c:1165-1174 | character data is an error exactly when no element is open |
| TreeDelta.Step | subversion/libsvn_delta/xml_parse.c:109-119 | once an error is recorded, an event changes nothing |
| TreeDelta.ErrorIsSticky | subversion/libsvn_delta/xml_parse.c:109-119 | after an error, no sequence of events changes the state |
| TreeDelta.FirstErrorWins | subversion/libsvn_delta/xml_parse.c:1359-1360 | the parse reports the first error, whatever follows it |
| TreeDelta.FirstFrameIsTreeDelta | subversion/libsvn_delta/xml_parse.c:315-327 | on an empty stack an opening tag is accepted exactly when it is `tree-delta` |
| TreeDelta.RunKeepsWellNested | subversion/libsvn_delta/xml_parse.c:305-404 | every reachable stack has a `<tree-delta>` at the bottom and each frame under a parent the table allows; exactly the tree-delta frames have a namespace |
| TreeDelta.EntryNamesUnique | subversion/libsvn_delta/xml_parse.c:254-298 | an `<add>` or `<replace>` is pushed only with a name new to its tree-delta, and that name is then recorded there |
| TreeDelta.CloseTagPops | subversion/libsvn_delta/xml_parse.c:1062-1140 | a closing tag that names the youngest frame pops exactly that frame; any other is refused and leaves the stack alone |
| TreeDelta.OpenCloseRoundTrip | subversion/libsvn_delta/xml_parse.c:905-1140 | opening an accepted element and closing it again gives back a stack of the same height, with every frame but the parent unchanged and the parent as the namespace check left it; a refused opening stays refused |
| TreeDelta.TreeDeltaRoundTrip | subversion/libsvn_delta/xml_parse.c:1132-1140 | a `<tree-delta>` opened and closed on an empty stack leaves it empty |
| TreeDelta.Parse | subversion/libsvn_delta/xml_parse.c:1324-1362 | a parse without a validation error ends on a well-nested stack |
| Ctype.CtypeTable | subversion/libsvn_subr/genctype.py:49-104 | the table has 256 entries; a byte is flagged ASCII exactly below 128, control exactly below 32 or at 127, space exactly on the whitespace bytes, digit, upper, lower and hex letter exactly on the usual ranges, punctuation exactly on the other printable ASCII bytes, continuation exactly on 0x80-0xBF, and lead exactly by the generator's test |
| Ctype.AsciiAndControl | subversion/libsvn_subr/genctype.py:54-59 | a byte is ASCII exactly below 128, and a control exactly below 32 or at 127 |
| Ctype.WhitespaceBytes | subversion/libsvn_subr/genctype.py:37 | the whitespace bytes are exactly tab, newline, vertical tab, form feed, carriage return and space |
| Ctype.AsciiClasses | subversion/libsvn_subr/genctype.py:65-88 | digits and letters are exactly the usual ranges, and punctuation, digit, upper and lower exclude each other |
| Ctype.HexLetters | subversion/libsvn_subr/genctype.py:79-88 | the hex-letter flag is set exactly on `A`-`F` and `a`-`f` |
| Ctype.HighBytes | subversion/libsvn_subr/genctype.py:90-98 | above 127 the lead flag follows the generator's test and the continuation flag is exactly 0x80-0xBF; no byte has both, and 0xC0 has no flag |
| Ctype.NoAsciiFlagsAbove127 | subversion/libsvn_subr/genctype.py:53-98 | bytes above 127 carry none of the ASCII classes |
| Ctype.LeadBytesAgainstRfc3629 | subversion/libsvn_subr/genctype.py:40 | against section 4 of RFC 3629, 0xE0 and 0xF0 are not flagged as lead bytes, while 0xC1 and 0xF5-0xFD other than 0xF8 and 0xFC are |
| Ctype.CasefoldTable | subversion/libsvn_subr/genctype.py:106-118 | the fold table has one entry per byte; an entry is non-NUL exactly on letters, capitals fold to themselves and small letters to their capitals, and the fold is idempotent |
| Ctype.CaseFold | subversion/libsvn_subr/genctype.py:106-118 | capitals fold to themselves and small letters to their capitals; every other byte folds to NUL; the fold is non-NUL exactly on letters and idempotent there |

## Left out

- The alignment primitive (`svn_diff_diff`, `svn_diff_diff3`) is not part of this model. The writers take its result, a list of ranges, as input. Where it matters, a lemma requires those ranges to be ordered or to lie within the texts.
- Token normalization (`svn_diff__normalize_buffer`) and the checksum (`svn_diff__adler32`) are parameters of the token source; they are not modelled.
- Streams, pools, the `printf`-style header formatting and the encoding conversions are left out: those of the file header and the no-newline notice in the unified writer, and the `svn_utf_cstring_from_utf8` conversion of the four merge markers (diff_memory.c:760-787). The model renders decimal numbers directly.
- Tokens.TokenCompare: returns only the sign of `memcmp` for tokens of equal length, as -1, 0 or 1, because callers use only the sign and the size C returns is unspecified.
- Merge.TokenRange: requires the range to lie within the source, because the C code indexes the token array unchecked.
- The unified context size (`SVN_DIFF__UNIFIED_CONTEXT_SIZE`, 3) is a parameter of the unified writer, and `UnifiedContextSize` holds the constant. The hunk invariant is proved for any context of at least one line.
- The platform line ending (`APR_EOL_STR`) is a parameter.
- The editor callbacks the validator makes on open and close (directory, file and property batons), the vcdiff parser fed by `<text-delta>` data, and property values are left out. So are the errors those callbacks can raise.
- Expat's own well-formedness checking is left out. The parser's callbacks are modelled as a sequence of events.
- `atoi` on the `ver` attribute is left out: the attribute is an integer when present.
- `svn_path_add_component` is not part of this model. It is modelled as a join with `/`, with no separator after an empty path.
- The printing of the generated C tables is left out. The tables are modelled as functions from byte to flags and from byte to fold.
- The merge writer re-outputs a resolved conflict's own alignment whenever resolved conflicts are to be shown, even if that alignment still holds conflicts. The model does the same.

## Findings

| source | as written | input that shows it | evidently intended | confidence | as-written member | corrected member |
|---|---|---|---|---|---|---|
| subversion/libsvn_diff/diff_memory.c:498-514 | when a change joins the open hunk, its leading context is requested from `targ_orig`, so the original lines from the cursor up to `targ_orig` are never written | context 3, delete original line 0 then original line 5: the written hunk `@@ -1,7 +1,5 @@` shows original lines 1 and 3-8 (1-based) and omits line 2 | a change that joins the open hunk takes its leading context from the cursor, so the hunk is one contiguous run of the original | not executed | Unified.AsWrittenDriverSkipsContext | Unified.UnifiedHunksFaithful |
