# Tone transposition for word-processing documents — a Dafny model

This project models the core of a service that rewrites the paragraphs of a word-processing
document in a target stylistic tone. It covers:

- how the service classifies the tone of a reference document (`extractTone`);
- how it rewrites every paragraph with text of a cloned document. Each paragraph is sent with a
  window of neighbouring paragraphs from the original document, and the replies are merged back by
  position (`applyTone` and the `rewriteParagraph` overloads);
- the tone enumeration and its parser (`StylisticTone`);
- the run-level text replacement used in the merge (`XWPFUtils.replaceParagraphText`);
- the indexed iteration helper (`CollectionUtils.forEachIndexed`);
- the storage file-name scheme (`FileStorageServiceImpl.getNormalizedFileName`).

The modules follow the source files:

- `Wrappers`: the `Option` and `Result` types of the model. A Java `null` becomes `None`, and a
  thrown `IllegalArgumentException` becomes `Failure(IllegalArgumentException(message))`.
- `Strings`: the Java string library as the code uses it:
  - `Collectors.joining` (`Join`);
  - `String.format` with `%s` conversions (`StringFormat`);
  - ASCII `toUpperCase`.
- `StylisticTones`: the enum `CASUAL | FORMAL | GRANDILOQUENT`, `toCommaSeparatedString` and
  `fromString`.
- `Documents`: the document model.
  - A run is a text with an opaque formatting.
  - A `Paragraph` object holds a run list that is updated in place.
  - A `Document` object holds its paragraph objects.
  - Two definitions the other contracts are stated in: `Snapshot()` gives a document's content
    as a value (`getParagraphs()` with each paragraph's runs), and `TextsOf` gives every
    paragraph's `getText()`, the concatenation of its run texts.
- `XWPFUtils`: `replaceParagraphText` as a method that changes the paragraph's run list in place
  with a downward removal loop. It is proved against `Replaced`, the run list it must produce.
- `CollectionUtils`: `forEachIndexed` as a counting loop. The action is a state transformer, and
  the loop also returns the trace of `(index, element)` calls it made.
- `FileStorage`: `getNormalizedFileName`, with `replace`, `lastIndexOf` and `substring` written out.
- `DocxToneManagement`: the engine. The class `DocxToneManagementService` is built around the text
  generator (`llm: string -> string`) and holds the two prompt templates.
  - `ExtractTone` builds the tone-classification request in a loop and parses the reply.
  - `ApplyTone` writes the replies into the clone's paragraphs in place.
  - The pure parts are functions at module level:
    - filtering (`NonEmptyPositions`, `NonEmptyTexts`, and `Select`, the definition of picking
      the elements at given positions);
    - windows (`BeforeWindow`, `AfterWindow`);
    - context joining (`ContextText`);
    - the merge (`Merged`);
    - and, inside the class, the four `rewriteParagraph` overloads and `TransposedContent`.

Three points of the code that the model follows as written:

- The context window is `contextWindow = 6` paragraphs on each side
  (DocxToneManagementService.java:21).
- Context paragraphs are joined with `Collectors.joining(" ")`, a single space
  (DocxToneManagementService.java:166 and :171).
- The classifier's reply goes to `fromString(textResult)` untrimmed
  (DocxToneManagementService.java:98).

The two prompt templates are the service's Java text blocks with their incidental indentation
removed. The model spells each of their lines as several short literals joined by `+`, because
the verifier's cost grows much faster than the length of one string literal; the text they spell
is the same.

The rewrite requests run concurrently in the source, but they are independent and their replies
are collected by index. `ApplyTone` therefore computes every reply first (`Rewrites`) and then
writes them back in index order.

## Model

| member | source | states |
|---|---|---|
| StylisticTones.Names | src/main/java/com/automwrite/assessment/service/transposition/StylisticTone.java:12-13 | the names of the given constants, position by position |
| StylisticTones.ToCommaSeparatedString | src/main/java/com/automwrite/assessment/service/transposition/StylisticTone.java:11-15 | the constants' names in declaration order joined by ", " is exactly "CASUAL, FORMAL, GRANDILOQUENT" |
| StylisticTones.Lookup | src/main/java/com/automwrite/assessment/service/transposition/StylisticTone.java:22 | a found constant is in the list and has exactly the given name; when none is found, no constant of the list has that name |
| StylisticTones.ValueOf | src/main/java/com/automwrite/assessment/service/transposition/StylisticTone.java:22 | `valueOf` finds a constant exactly when some constant has that exact name, and the one found has it |
| StylisticTones.FromString | src/main/java/com/automwrite/assessment/service/transposition/StylisticTone.java:17-26 | null fails with "Tone string cannot be null"; otherwise it succeeds exactly when the upper-cased input is a constant's name, and then returns that constant; every other input fails with "Invalid tone: '" + input + "'. None of the values: 'CASUAL, FORMAL, GRANDILOQUENT' were matched" |
| StylisticTones.NameInjective | src/main/java/com/automwrite/assessment/service/transposition/StylisticTone.java:6-9 | distinct constants have distinct names |
| StylisticTones.FromStringCaseVariant | src/test/java/com/automwrite/assessment/service/transposition/impl/DocxToneManagementServiceTest.java:37-44 | parsing any letter-case variant of a constant's name gives that constant |
| StylisticTones.FromStringName | src/main/java/com/automwrite/assessment/service/transposition/StylisticTone.java:22 | round trip: parsing a constant's name gives back the constant |
| StylisticTones.FromStringNoTrim | src/main/java/com/automwrite/assessment/service/transposition/StylisticTone.java:22-24 | a name with a leading or trailing space is rejected with the invalid-tone message; it is not trimmed |
| StylisticTones.FromStringEmpty | src/test/java/com/automwrite/assessment/service/transposition/impl/DocxToneManagementServiceTest.java:67-80 | the empty reply fails with "Invalid tone: ''. None of the values: '" + the comma-separated names + "' were matched" |
| Strings.JoinLength | src/main/java/com/automwrite/assessment/service/transposition/impl/DocxToneManagementService.java:166 | a join has the elements' characters plus one separator per gap |
| Strings.JoinSnoc | src/main/java/com/automwrite/assessment/service/transposition/impl/DocxToneManagementService.java:166 | joining one more element appends the separator and that element |
| Strings.JoinEmptyIff | src/main/java/com/automwrite/assessment/service/transposition/impl/DocxToneManagementService.java:163-166 | a join of non-empty texts is empty exactly when there are none |
| Strings.StringFormat | src/main/java/com/automwrite/assessment/service/transposition/impl/DocxToneManagementService.java:93 | a formatted text is as long as template plus values together, and starts with the template's head |
| Strings.StringFormat4 | src/main/java/com/automwrite/assessment/service/transposition/impl/DocxToneManagementService.java:192 | a four-conversion template is filled as head, value 1, piece, value 2, piece, value 3, piece, value 4, tail |
| Strings.ToUpperAscii | src/main/java/com/automwrite/assessment/service/transposition/StylisticTone.java:22 | upper-casing keeps the length and upper-cases character by character |
| Strings.UpperOfCaseVariant | src/main/java/com/automwrite/assessment/service/transposition/StylisticTone.java:22 | an upper-case name is what every letter-case variant of it upper-cases to |
| FileStorage.ReplaceSpaces | src/main/java/com/automwrite/assessment/service/storage/impl/FileStorageServiceImpl.java:86 | every space becomes "_", and every other character stays in place |
| FileStorage.LastIndexOf | src/main/java/com/automwrite/assessment/service/storage/impl/FileStorageServiceImpl.java:88 | -1 exactly when the character is absent, otherwise a position holding it with none after it |
| FileStorage.GetNormalizedFileName | src/main/java/com/automwrite/assessment/service/storage/impl/FileStorageServiceImpl.java:81-96 | fails exactly when the name or the category is null, with "fileName and fileType cannot be null" |
| FileStorage.NormalizedNameShape | src/main/java/com/automwrite/assessment/service/storage/impl/FileStorageServiceImpl.java:86-95 | the result has no space and is one character plus the category's name longer than the input |
| FileStorage.NormalizedNameWithoutDot | src/main/java/com/automwrite/assessment/service/storage/impl/FileStorageServiceImpl.java:93-94 | without a dot the result is the input with spaces replaced, then "-", then the category's name |
| FileStorage.NormalizedNameParts | src/main/java/com/automwrite/assessment/service/storage/impl/FileStorageServiceImpl.java:88-92 | the result's part before its last dot is the input's part before its last dot, then "-" and the category; the extension from the last dot stays at the end, with spaces replaced |
| FileStorage.InsertBeforeLastDot | src/main/java/com/automwrite/assessment/service/storage/impl/FileStorageServiceImpl.java:88-92 | with a dash and a dot-free name inserted before the last dot, that dot stays the last one, with the inserted text before it and the old extension after it |
| FileStorage.NormalizedNameToneSource | src/test/java/com/automwrite/assessment/service/storage/impl/FileStorageServiceImplTest.java:106-109 | "Sample Document" with TONE_SOURCE becomes "Sample_Document-TONE_SOURCE" |
| FileStorage.NormalizedNameOriginalTone | src/test/java/com/automwrite/assessment/service/storage/impl/FileStorageServiceImplTest.java:106-110 | "Sample Document" with ORIGINAL_TONE becomes "Sample_Document-ORIGINAL_TONE" |
| FileStorage.NormalizedNameAdjustedTone | src/test/java/com/automwrite/assessment/service/storage/impl/FileStorageServiceImplTest.java:106-111 | "Sample Document" with ADJUSTED_TONE becomes "Sample_Document-ADJUSTED_TONE" |
| FileStorage.NormalizedNameNull | src/main/java/com/automwrite/assessment/service/storage/impl/FileStorageServiceImpl.java:82-84 | a null name or a null category is refused with the null-argument message |
| Documents.Paragraph.SetRunText | src/main/java/com/automwrite/assessment/utils/XWPFUtils.java:14 | the run at the position gets the new text and keeps its formatting; no other run changes |
| Documents.Paragraph.RemoveRun | src/main/java/com/automwrite/assessment/utils/XWPFUtils.java:17 | removes the run at a valid position and reports it; any other position changes nothing |
| XWPFUtils.Replaced | src/main/java/com/automwrite/assessment/utils/XWPFUtils.java:10-20 | no runs stay no runs; otherwise exactly one run is left, with the first run's formatting, and its text is the new text |
| XWPFUtils.ReplaceParagraphText | src/main/java/com/automwrite/assessment/utils/XWPFUtils.java:10-20 | the paragraph's run list becomes `Replaced` of the old one; the downward loop keeps runs 0..i of the old list as they were, apart from the new first text |
| XWPFUtils.ReplacedIdempotent | src/main/java/com/automwrite/assessment/utils/XWPFUtils.java:10-20 | replacing twice with the same text is replacing once |
| XWPFUtils.ReplacedText | src/main/java/com/automwrite/assessment/utils/XWPFUtils.java:13-18 | for a paragraph with text, the text after the replacement is exactly the new text |
| CollectionUtils.ForEachIndexed | src/main/java/com/automwrite/assessment/utils/CollectionUtils.java:7-11 | exactly one call per element, with indices 0, 1, ... in order and element i at index i (none for an empty list); the final state is the effect of those calls in order |
| CollectionUtils.ReplayAppend | src/main/java/com/automwrite/assessment/utils/CollectionUtils.java:8-10 | the effect of two call sequences in a row is the effect of their concatenation |
| DocxToneManagement.NonEmptyPositions | src/main/java/com/automwrite/assessment/service/transposition/impl/DocxToneManagementService.java:106-107 | the filtered paragraphs are exactly those with non-empty text, each once, in document order |
| DocxToneManagement.NonEmptyTexts | src/main/java/com/automwrite/assessment/service/transposition/impl/DocxToneManagementService.java:106-107 | the filtered texts: the texts of the paragraphs with text, in document order, never more than the paragraphs; each is non-empty and a text of the document, and every non-empty text of the document is among them |
| DocxToneManagement.RankAt | src/main/java/com/automwrite/assessment/service/transposition/impl/DocxToneManagementService.java:106-107 | a paragraph with text sits in the filtered list at the index given by the number of paragraphs with text before it |
| DocxToneManagement.PositionRank | src/main/java/com/automwrite/assessment/service/transposition/impl/DocxToneManagementService.java:106-107 | the k-th filtered paragraph has k paragraphs with text before it |
| DocxToneManagement.PositionsSamePattern | src/main/java/com/automwrite/assessment/service/transposition/impl/DocxToneManagementService.java:106-107 | only which paragraphs are empty decides what the filter keeps |
| DocxToneManagement.NonEmptyTextsOfNonEmpty | src/main/java/com/automwrite/assessment/service/transposition/impl/DocxToneManagementService.java:165 | a list without empty texts is kept whole by the filter |
| DocxToneManagement.BeforeWindow | src/main/java/com/automwrite/assessment/service/transposition/impl/DocxToneManagementService.java:130-131 | the min(i, 6) paragraphs right before index i in order, so none at i = 0 and at most 6 |
| DocxToneManagement.AfterWindow | src/main/java/com/automwrite/assessment/service/transposition/impl/DocxToneManagementService.java:134-135 | the min(N-1-i, 6) paragraphs right after index i in order, so none at i = N-1, at most 6, and never paragraph i |
| DocxToneManagement.WindowsAroundParagraph | src/main/java/com/automwrite/assessment/service/transposition/impl/DocxToneManagementService.java:130-135 | the before window, the paragraph and the after window make up the original filtered paragraphs [max(0, i-6), min(N, i+7)) |
| DocxToneManagement.ContextText | src/main/java/com/automwrite/assessment/service/transposition/impl/DocxToneManagementService.java:163-171 | a window's context text is empty exactly when no paragraph of the window has text |
| DocxToneManagement.ContextTextOfNonEmpty | src/main/java/com/automwrite/assessment/service/transposition/impl/DocxToneManagementService.java:163-171 | for a window of paragraphs with text, the context text is their texts joined by single spaces in window order |
| DocxToneManagement.ToneSourceText | src/main/java/com/automwrite/assessment/service/transposition/impl/DocxToneManagementService.java:87-91 | the tone-source text has every paragraph's characters plus one line break per paragraph |
| DocxToneManagement.ToneSourceTextAt | src/main/java/com/automwrite/assessment/service/transposition/impl/DocxToneManagementService.java:87-91 | every paragraph's text, empty ones included, appears in order right after the earlier lines and is followed by "\n" |
| DocxToneManagement.Merged | src/main/java/com/automwrite/assessment/service/transposition/impl/DocxToneManagementService.java:149-153 | the clone after the merge has the same paragraph count; its k-th paragraph with text becomes `Replaced` of its runs with the k-th reply, and a paragraph without text stays as it was |
| DocxToneManagement.MergedTextAt | src/main/java/com/automwrite/assessment/service/transposition/impl/DocxToneManagementService.java:149-153 | with non-empty replies, a paragraph has text after the merge exactly when it had text before, and then that text is its reply |
| DocxToneManagement.MergedTexts | src/main/java/com/automwrite/assessment/service/transposition/impl/DocxToneManagementService.java:144-153 | with non-empty replies, the texts of the paragraphs with text after the merge are exactly the replies, in order |
| DocxToneManagement.MergedWithoutText | src/main/java/com/automwrite/assessment/service/transposition/impl/DocxToneManagementService.java:149-153 | a clone without text is not changed by the merge |
| DocxToneManagement.PartlyMergedStep | src/main/java/com/automwrite/assessment/utils/CollectionUtils.java:8-10 | writing back reply n changes only the untouched paragraph with text of rank n |
| DocxToneManagement.WriteBack | src/main/java/com/automwrite/assessment/service/transposition/impl/DocxToneManagementService.java:149-153 | one step of the write-back: paragraph j's runs become `Replaced` of its runs; no other paragraph of this document or of the original changes |
| DocxToneManagement.ExtractTonePromptTemplate | src/main/java/com/automwrite/assessment/service/transposition/impl/DocxToneManagementService.java:27-30 | the classification template has two conversions and ends with a quote, a line break and a space |
| DocxToneManagement.ApplyTonePromptTemplate | src/main/java/com/automwrite/assessment/service/transposition/impl/DocxToneManagementService.java:49-76 | the rewrite template has four conversions, with "\n     Text: " between tone and before-text and the paragraph text between " [" and "] " |
| DocxToneManagement.FilledInjective | src/main/java/com/automwrite/assessment/service/transposition/impl/DocxToneManagementService.java:192 | two fillings of one four-conversion template agree only if the first values start alike, and, for the same first value, only if the third values agree |
| DocxToneManagement.DocxToneManagementService.constructor | src/main/java/com/automwrite/assessment/service/transposition/impl/DocxToneManagementService.java:23-25 | the service keeps the given text generator and the two templates |
| DocxToneManagement.DocxToneManagementService.ExtractTonePromptShape | src/main/java/com/automwrite/assessment/service/transposition/impl/DocxToneManagementService.java:27-30 | the classification request lists the names inside square brackets and quotes the document text in single quotes |
| DocxToneManagement.DocxToneManagementService.ApplyTonePromptInjective | src/main/java/com/automwrite/assessment/service/transposition/impl/DocxToneManagementService.java:191-192 | with the context fixed, two rewrite requests are equal exactly when tone and paragraph text are equal |
| DocxToneManagement.DocxToneManagementService.ExtractTonePromptInjective | src/main/java/com/automwrite/assessment/service/transposition/impl/DocxToneManagementService.java:93 | with the name list fixed, two classification requests are equal exactly when the document texts are |
| DocxToneManagement.DocxToneManagementService.ExtractTone | src/main/java/com/automwrite/assessment/service/transposition/impl/DocxToneManagementService.java:86-99 | the result is `fromString` of the reply to the classification request carrying the comma-joined names and every paragraph's text, each followed by "\n" |
| DocxToneManagement.DocxToneManagementService.RewriteParagraph | src/main/java/com/automwrite/assessment/service/transposition/impl/DocxToneManagementService.java:191-194 | the reply to the request that reads: the instructions, the tone's name, "\n     Text: ", the before-text, the paragraph text inside " [" and "] ", the after-text and the output rules |
| DocxToneManagement.DocxToneManagementService.RewriteParagraphWithContext | src/main/java/com/automwrite/assessment/service/transposition/impl/DocxToneManagementService.java:162-174 | for windows of paragraphs with text, the before- and after-texts sent are the windows' texts joined by single spaces |
| DocxToneManagement.DocxToneManagementService.RewriteParagraphBetween | src/main/java/com/automwrite/assessment/service/transposition/impl/DocxToneManagementService.java:176-189 | sends what the window overload sends for windows holding only the neighbour that is present, and none for a missing one |
| DocxToneManagement.DocxToneManagementService.RewriteParagraphAlone | src/main/java/com/automwrite/assessment/service/transposition/impl/DocxToneManagementService.java:158-160 | sends what empty windows and two missing neighbours send |
| DocxToneManagement.DocxToneManagementService.Rewrites | src/main/java/com/automwrite/assessment/service/transposition/impl/DocxToneManagementService.java:125-138 | exactly one reply per paragraph with text of the original, none when there is none |
| DocxToneManagement.DocxToneManagementService.TransposedContent | src/main/java/com/automwrite/assessment/service/transposition/impl/DocxToneManagementService.java:101-156 | the content of the clone after `applyTone` has the clone's paragraph count, and every clone paragraph without text is unchanged |
| DocxToneManagement.DocxToneManagementService.TransposedParagraphs | src/main/java/com/automwrite/assessment/service/transposition/impl/DocxToneManagementService.java:125-153 | the k-th clone paragraph with text becomes a single run with its first run's formatting, holding the reply to the request with its own text and the original's before and after windows around index k |
| DocxToneManagement.DocxToneManagementService.TransposedWithoutText | src/main/java/com/automwrite/assessment/service/transposition/impl/DocxToneManagementService.java:125-153 | with no paragraph with text, the list of replies is empty, so no request is made, and the clone is returned unchanged |
| DocxToneManagement.DocxToneManagementService.TransposedTexts | src/main/java/com/automwrite/assessment/service/transposition/impl/DocxToneManagementService.java:144-153 | when none of the replies used is empty, the texts of the result's paragraphs with text are exactly the replies, in order |
| DocxToneManagement.DocxToneManagementService.TransposedBlankReplies | src/main/java/com/automwrite/assessment/service/transposition/impl/DocxToneManagementService.java:144-153 | when every reply is empty, as the text generator's client answers on a failed request, every paragraph of the result is empty |
| DocxToneManagement.DocxToneManagementService.ApplyTone | src/main/java/com/automwrite/assessment/service/transposition/impl/DocxToneManagementService.java:101-156 | the clone object is returned, its content is `TransposedContent` of the two documents' old contents, and the original document is unchanged |

## Left out

- The text-generation backend (`LlmService`, HTTP and the remote API) is a foreign call. It is the
  function `llm` given to the service's constructor, and it never fails in the model.
- Concurrency: the `CompletableFuture` fan-out and join become computing every reply before the
  write-back, which is what gathering the replies by index gives.
- Cloning with `new XWPFDocument(file.getPackage())` is the document library's work. `ApplyTone`
  receives the clone as a parameter.
- ApplyTone: it requires that the clone has as many paragraphs with text as the original, as a
  faithful clone does, and that the clone shares no paragraph object with the original. The code
  relies on both without checking them. When the clone has M paragraphs with text, fewer than the
  original, `IndexOutOfBoundsException` is thrown at `toneShiftedParagraphs.get(M)`
  (DocxToneManagementService.java:127): the indices are mapped in order (:125-138), so the M
  rewrite requests for indices 0..M-1 have already been handed to the pool (:137), and their
  replies are discarded; nothing is written back (:149). With more clone paragraphs with text, it
  throws at `paragraphContents.get(index)` (:150), after as many clone paragraphs with text as the
  original has were already rewritten in place. Neither error path is modelled.
- ApplyTone: the write-back is a `for` loop over the clone's paragraphs with text, not a call to
  `CollectionUtils.ForEachIndexed`. That action changes paragraph objects in place, and a Dafny
  function value cannot do that. `ForEachIndexed` models the helper itself, with a
  state-transforming action.
- The debug `System.out.println` in `applyTone` is console output.
- Apache POI internals: run formatting is an opaque value, and `setText(text, 0)` is replacing the
  run's text.
- StylisticTones.FromString: `toUpperCase` is the ASCII upper-casing, not Java's locale-dependent,
  full-Unicode mapping.
- Strings.StringFormat: only `%s` conversions are modelled, because the two templates use no other
  conversion.
- The other operations of `FileStorageServiceImpl` (`list`, `exists`, `read`, `write`, `delete`)
  are file-system I/O.
- `FileCategory` is declared in the storage package (`com.automwrite.assessment.service.storage`).
  Only the three constants the storage tests use (FileStorageServiceImplTest.java:109-111),
  `TONE_SOURCE`, `ORIGINAL_TONE` and `ADJUSTED_TONE`, are modelled.
- The web controllers, the older asynchronous `ToneServiceImpl` and `DocumentTransformer`, and the
  interfaces carry no logic of the core.
