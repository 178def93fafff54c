# VietLegalQA cloze question construction, in Dafny

VietLegalQA builds extractive question-answer data from Vietnamese legal
articles. Each article has summary sentences and context segments. The
construction works on the constituency parse of each summary sentence:

- it collects candidate answers: phrases of a part-of-speech tag (`NUM`, `NP`,
  `AP`, `VP`, `S`) and named entities;
- it collects the clauses of the sentence, from the "S" nodes of the parse and
  from splitting the sentence at commas;
- it builds each question from the first clause that contains the answer, with
  the answer masked;
- it locates the answer in the context segment that best matches the question;
- it records a `QAPair` with a numbered id.

The model covers three implementations of this pipeline and the records they
produce.

- **Script extractor.** `extractor.py` and `answer_extraction.py` hold the same
  code. Module `AnswerExtractor` (`extractor.dfy`) models it once.
  - It covers clause extraction, phrase extraction, answer location and summary
    re-rendering.
  - It covers the two record loops, `extract_answer_pos` and
    `extract_answer_ne`. Both run through `ExtractAnswers`: mode `Span(tag)` is
    the phrase loop, mode `Entities` the entity loop.
  - Each loop is proved equal to a function that says which pairs it builds:
    `Records` per item, `ItemQAs` per summary paragraph, `SummaryQAs` and
    `Numbered` per candidate, with `SpanDraft` and `EntityDraft` deciding
    whether a candidate gives a pair. Lemmas then show every such pair valid
    and numbered on from the pairs before it.
  - The `answer_extraction.py` counterparts are at these lines:
    - `get_answer_start` 81-105, `extract_s_clauses` 107-118,
      `extract_comma_clauses` 120-134 and `extract_clauses` 136-151;
    - `extract_pos` 153-164, `extract_pos_answers` 166-174 and `get_summary`
      176-184;
    - `extract_answer_pos` 210-281 and `extract_answer_ne` 283-355.
- **Packaged constructor.**
  - `ConstructUtils` (`construct_utils.dfy`) models
    `vietlegalqa/modules/construct/utils.py`.
  - `Constructor` (`constructor.dfy`) models `QAConstruct`. Its dataset is
    updated in place. The class's methods are proved equal to `Run` applied to
    a list of outcomes (`DocumentOutcomes`). `SpanOutcome` and `EntityOutcome`
    state exactly when a candidate gives a pair, and that the pair names the
    segment and start `get_answer_start` returns. The lemmas about `Run` state the
    dataset's final shape and the soundness of every appended pair:
    - ids are numbered by position;
    - old pairs are kept;
    - every pair's answer occurs at its recorded start in the segment it names;
    - a run stops early only on an article with no context segments.
- **ViQuAD converter.** `ViquadCloze` (`viquad.dfy`) models the
  `get_labels`, `get_pos` and `get_cloze` functions of `viquad_to_cloze.py`.
- **Records.**
  - `DataUtils` models `vietlegalqa/data/utils.py`: field lists,
    `get_extension`, `Entry` and `Dataset`.
  - `DocData` models `vietlegalqa/data/doc.py`: `Article` and `Document`.
  - `QAData` models `vietlegalqa/data/qa.py`: `QAPair` and `QADataset`.
  - Python's insertion-ordered `dict` is `OrderedDict.Dict`.
  - The Python string operations the code relies on are in `PyStr`: `find`,
    `in`, `replace`, `split`, `join`, `strip`, `split()`, `upper`, `str(int)`,
    `repr` and `<`.

The annotators are parameters of the model: stanza's parser, its POS tagger
and the `underthesea` tokenizers. A parsed sentence is a `ParseTree.Tree` with
its words, named entities and last token's end offset.

Some behaviours of the code look unintended. The model keeps them as written
and proves them as properties:

- `extractor.py` sorts the ranked segments ascending, so it takes the segment
  with the *lowest* overlap score (`AnswerExtractor.GetAnswerStart`).
- In `construct/utils.py`, the comma splitter glues `enumerate` tuples such as
  `(0, 'b')` into clauses (`ConstructUtils.AbsorbPrintsTuple`).
- The constructor's "no candidates" guard sums the lengths of the tag names.
  The sum is 12, so the guard never skips a summary
  (`Constructor.GuardNeverSkips`).
- `get_answer_start` in `construct/utils.py` returns -1 when the winning
  segment lacks the answer, even if another segment contains it
  (`ConstructUtils.AnswerInOtherSegmentMissed`).
- `get_labels` looks only at the first child of each node
  (`ViquadCloze.OnlyFirstChildExplored`).
- `Dataset.__getitem__` with a string always raises a `TypeError`
  (`DataUtils.Dataset.GetItemStr`).

## Model

| member | source | states |
|---|---|---|
| PyStr.Find | extractor.py:122 | `s.find(sub)` is -1 exactly when `sub` does not occur in `s`; otherwise `sub` first occurs at that index |
| PyStr.FindFrom | extractor.py:134 | the first occurrence of `sub` at or after `i`, or -1 when there is none from `i` on |
| PyStr.ReplaceFirst | vietlegalqa/modules/construct/constructor.py:54 | `replace(a, b, 1)`: the string is unchanged when `a` does not occur; otherwise the first occurrence of `a` is replaced by `b` |
| PyStr.ReplaceFirstContainsReplacement | vietlegalqa/modules/construct/constructor.py:104 | after replacing a present answer, the mask sits where the answer first occurred |
| PyStr.ReplaceFirstSelf | extractor.py:450 | replacing a text by itself (the entity question in the script extractor) changes nothing |
| PyStr.ReplaceAll | viquad_to_cloze.py:103-104 | `replace(a, b)` leaves a string shorter than `a` unchanged |
| PyStr.ReplaceAllAbsent | viquad_to_cloze.py:104 | replacing an absent text changes nothing |
| PyStr.ReplaceAllSelf | viquad_to_cloze.py:103 | replacing every occurrence of a text by itself changes nothing |
| PyStr.ReplaceAllContainsReplacement | viquad_to_cloze.py:103 | when the text occurs, the result contains the replacement |
| PyStr.Join | extractor.py:134 | `sep.join` of a single part is that part |
| PyStr.JoinAppend | vietlegalqa/modules/construct/utils.py:46-51 | joining one more part appends the separator and the part |
| PyStr.JoinContainsPart | extractor.py:134 | each part occurs in the joined string at its computed offset |
| PyStr.CountChar | vietlegalqa/modules/construct/utils.py:105 | the count is zero exactly when the character is absent |
| PyStr.Split | vietlegalqa/modules/construct/utils.py:105 | `split(sep)` yields at least one piece |
| PyStr.SplitShape | extractor.py:179 | `split(',')` yields one more piece than there are commas, and no piece contains a comma |
| PyStr.SplitJoin | extractor.py:179 | joining the pieces with the separator gives back the string |
| PyStr.StripLeft | vietlegalqa/modules/construct/utils.py:105 | the result does not start with whitespace |
| PyStr.StripRight | vietlegalqa/modules/construct/utils.py:105 | the result does not end with whitespace |
| PyStr.StripLeftSuffix | vietlegalqa/modules/construct/utils.py:105 | `lstrip` removes only a leading run of whitespace |
| PyStr.StripRightPrefix | vietlegalqa/modules/construct/utils.py:105 | `rstrip` removes only a trailing run of whitespace |
| PyStr.Strip | vietlegalqa/modules/construct/utils.py:105 | `strip()` neither starts nor ends with whitespace and is no longer than its input |
| PyStr.StripSlice | vietlegalqa/modules/construct/utils.py:105 | `strip()` is a slice of the input with only whitespace cut from both ends |
| PyStr.StripTrimmed | vietlegalqa/data/utils.py:104-118 | a string without surrounding whitespace is its own strip |
| PyStr.StripIdempotent | vietlegalqa/data/utils.py:104-118 | stripping twice is stripping once |
| PyStr.StripAppendSpace | extractor.py:284-287 | a trailing whitespace character does not change the strip |
| PyStr.WordCount | vietlegalqa/modules/construct/utils.py:110 | `len(s.split())` is at most the length of `s` |
| PyStr.WordCountZero | vietlegalqa/modules/construct/utils.py:110 | the count is zero exactly when the string is all whitespace |
| PyStr.EndsWithAppended | vietlegalqa/data/utils.py:104-116 | a string with a suffix appended ends with that suffix |
| PyStr.UpperChar | vietlegalqa/data/qa.py:24 | lower-case ASCII letters are shifted to upper case; other characters are kept |
| PyStr.Upper | vietlegalqa/data/qa.py:24 | `upper()` keeps the length and upper-cases each character |
| PyStr.UpperIdempotent | vietlegalqa/data/qa.py:24 | upper-casing twice is upper-casing once |
| PyStr.DigitChar | vietlegalqa/modules/construct/constructor.py:89 | a decimal digit character with that value |
| PyStr.NatToString | vietlegalqa/modules/construct/constructor.py:89 | `str(n)` is a non-empty string of digits |
| PyStr.ParseNatToString | vietlegalqa/modules/construct/constructor.py:89 | reading the digits of `str(n)` back gives `n` |
| PyStr.NatToStringInjective | vietlegalqa/modules/construct/constructor.py:89 | different numbers print differently |
| PyStr.AfterLast | vietlegalqa/modules/construct/constructor.py:89 | the text after the last separator contains no separator and ends the string |
| PyStr.AfterLastAppended | vietlegalqa/modules/construct/constructor.py:89 | the text after the last separator of `p + c + d` is `d` when `d` has no `c` |
| PyStr.NumberedSuffix | vietlegalqa/modules/construct/constructor.py:89 | the number is recoverable after the last `_` of a numbered id |
| PyStr.NumberedIdsDiffer | extractor.py:395 | ids `f"{p}_{m}"` and `f"{q}_{n}"` differ when `m != n`, whatever the prefixes |
| PyStr.ReprChar | vietlegalqa/modules/construct/utils.py:111 | the printed form of one character is not empty |
| PyStr.ReprBody | vietlegalqa/modules/construct/utils.py:111 | escaping never shortens the string |
| PyStr.StrRepr | vietlegalqa/modules/construct/utils.py:111 | `repr(s)` is at least two longer than `s` and is delimited by its quote character |
| PyStr.TupleRepr | vietlegalqa/modules/construct/utils.py:111 | the printed `(k, 'piece')` tuple is parenthesised |
| PyStr.StrLessAsymmetric | vietlegalqa/data/qa.py:108 | `<` on strings is irreflexive and asymmetric |
| PyStr.StrLessTotal | vietlegalqa/data/qa.py:108 | two different strings are ordered one way or the other |
| StableSort.WithKey | extractor.py:218 | the elements with a given key form a subsequence no longer than the input |
| StableSort.Insert | extractor.py:218 | insertion adds exactly one element: the result is a permutation of the input plus `x` |
| StableSort.InsertSorted | extractor.py:218 | inserting into a sorted list keeps it sorted |
| StableSort.SortBy | extractor.py:218 | `sorted(key=...)` is sorted by the key and is a permutation of its input |
| StableSort.WithKeyInsert | extractor.py:218 | insertion keeps the relative order of elements with equal keys |
| StableSort.SortByStable | vietlegalqa/modules/construct/utils.py:151 | the sort is stable: the elements of each key keep their input order |
| StableSort.FirstMinIndex | vietlegalqa/modules/construct/utils.py:176 | the first position of the minimum key |
| StableSort.SortByHead | vietlegalqa/modules/construct/utils.py:176-178 | the head of the stable sort is the first element with the least key |
| ParseTree.LeafLabels | extractor.py:161 | `leaf_labels()` of any node is non-empty |
| ParseTree.LeafLabelsOf | extractor.py:161 | a forest has at least as many leaves as trees |
| ParseTree.LeafCountOfChild | extractor.py:161 | a child never has more leaves than its parent |
| ParseTree.PreOrderPermutesPostOrder | vietlegalqa/modules/construct/utils.py:92-98 | the pre-order and post-order visits hold the same nodes |
| ParseTree.Collect | extractor.py:154-164 | the kept renderings are no more than the visited nodes |
| ParseTree.CollectAppend | extractor.py:158-159 | collecting from a concatenation concatenates the collections |
| ParseTree.CollectPermutes | vietlegalqa/modules/construct/utils.py:56-68 | visiting a permutation of the nodes collects a permutation of the texts |
| ParseTree.CollectSameRender | vietlegalqa/modules/construct/utils.py:31-32 | renderers that agree on every node collect the same texts |
| AnswerExtractor.SClausesPostOrder | extractor.py:140-164 | `extract_s_clauses` renders, in post-order, every "S" node with more than `threshold` words |
| AnswerExtractor.SClausesShort | extractor.py:161 | a tree with at most `threshold` words yields no clause |
| AnswerExtractor.ExtractPosPostOrder | extractor.py:221-245 | `extract_pos` renders, in post-order, every node whose upper-cased label is the tag |
| AnswerExtractor.SingleWordPhrase | extractor.py:242-243 | a lower-case `np` over one word yields that word for tag `NP` |
| AnswerExtractor.ExtractPosAnswers | extractor.py:247-268 | the spans of each sentence, concatenated in sentence order |
| AnswerExtractor.CommaClauses | extractor.py:166-191 | `extract_comma_clauses` is the fragment function of the words joined by spaces |
| AnswerExtractor.MergeAdvances | extractor.py:186-188 | the inner loop never moves the piece counter back |
| AnswerExtractor.MergeUnmoved | extractor.py:186-188 | when the counter did not move, the fragment is unchanged |
| AnswerExtractor.MergeEndsWithLastAbsorbed | extractor.py:186-188 | a grown fragment ends with `", "` and the last piece it absorbed, stripped |
| AnswerExtractor.MergeStops | extractor.py:186 | the loop stops only when the fragment has 10 characters or the pieces are used up |
| AnswerExtractor.EmitLength | extractor.py:183-190 | the outer loop emits one fragment per remaining piece |
| AnswerExtractor.EmitKeepsLong | extractor.py:186 | a piece of at least 10 characters is emitted unchanged |
| AnswerExtractor.EmitLast | extractor.py:183-190 | the last fragment emitted is the last piece |
| AnswerExtractor.EmitFragments | extractor.py:183-190 | every fragment is its piece, or is at least 10 characters long, or ends with the stripped last piece |
| AnswerExtractor.CommaFragmentsNoComma | answer_extraction.py:120-134 | a sentence without a comma yields no fragment |
| AnswerExtractor.CommaFragmentsCount | answer_extraction.py:120-134 | with a comma, there are as many fragments as pieces: commas plus one |
| AnswerExtractor.CommaFragmentsKeepLong | answer_extraction.py:127-131 | a piece of at least 10 characters is emitted as is, at its own position |
| AnswerExtractor.CommaFragmentsLast | answer_extraction.py:124-133 | the last fragment is the last piece |
| AnswerExtractor.CommaFragmentsMerged | answer_extraction.py:127-131 | each fragment is its piece, long enough, or glued through to the last piece |
| AnswerExtractor.GlueShortPieces | extractor.py:187 | two stripped pieces are glued with `", "` |
| AnswerExtractor.MergeShortPieces | extractor.py:186-188 | short pieces are glued on while the fragment is under 10 characters and pieces remain |
| AnswerExtractor.ShortPieceReemitted | extractor.py:183-190 | the counter is not the loop variable: an absorbed piece is emitted again on its own |
| AnswerExtractor.ExtractClauses | extractor.py:193-219 | the clauses are sorted by length ascending, are a permutation of the per-sentence S clauses and comma fragments, and equal the stable sort `SortedClauses` of them |
| AnswerExtractor.SortedClausesStable | extractor.py:218 | the sort keeps the clauses of each length in their order of discovery |
| AnswerExtractor.Rank | extractor.py:120-127 | the ranked entries are exactly the segments containing the answer; the list is empty exactly when no segment contains it |
| AnswerExtractor.CollectTokens | extractor.py:115-118 | the lemmas of the question's non-stop words, in order |
| AnswerExtractor.CountOverlap | extractor.py:123-126 | the number of non-stop words of a segment whose lemma is a question token |
| AnswerExtractor.RankSegments | extractor.py:120-127 | the loop builds exactly the ranked list |
| AnswerExtractor.LocateThroughSegment | extractor.py:134-136 | the segment's offset in the joined context plus the answer's offset in the segment is an occurrence of the answer in the joined context |
| AnswerExtractor.GetAnswerStart | extractor.py:99-138 | -1 exactly when no segment contains the answer; otherwise an occurrence of the answer in the joined context: the first occurrence of the first lowest-scoring segment's text, plus the answer's offset in that segment; the result is `AnswerStart` |
| AnswerExtractor.AnswerStartSpec | extractor.py:99-138 | the offset `AnswerStart` defines is -1 exactly when no segment contains the answer, and otherwise an offset at which the joined context holds the answer |
| AnswerExtractor.FirstContaining | extractor.py:376-379 | the index of the first clause containing the answer, or -1 when none does |
| AnswerExtractor.FirstCovering | extractor.py:454-455 | the index of the first sentence whose last token ends at or after the entity, or -1 |
| AnswerExtractor.ClauseWith | extractor.py:376-379 | the loop finds exactly the first clause containing the answer |
| AnswerExtractor.CoveringSentence | extractor.py:454-463 | the loop finds exactly the first covering sentence |
| AnswerExtractor.SpanQuestionOf | extractor.py:371-381 | no question exactly for an empty answer or one no clause contains; a question made holds `PLACEHOLDER` |
| AnswerExtractor.SpanQuestion | extractor.py:371-381 | no question for an empty answer or one no clause contains; otherwise the first such clause with the answer's first occurrence replaced by `PLACEHOLDER`, which then occurs in it; the result is `SpanQuestionOf` |
| AnswerExtractor.EntityQuestionOf | extractor.py:443-465 | a question made is non-empty; the first clause holding the entity, when there is one and the entity is non-empty, is the question; with no such clause and no covering sentence there is none |
| AnswerExtractor.EntityQuestion | extractor.py:443-465 | the first clause containing the entity, unmasked; otherwise the first covering sentence's words with the entity replaced by its type; none when the question is missing or empty; the result is `EntityQuestionOf` |
| AnswerExtractor.SentenceTexts | extractor.py:285-286 | one rendered text per sentence |
| AnswerExtractor.GetSummary | extractor.py:270-289 | the parse of the summary, and the words of its sentences, each followed by a space, stripped |
| AnswerExtractor.SummaryTextJoined | extractor.py:284-287 | the accumulated text is the sentences joined by spaces, plus a trailing space |
| AnswerExtractor.SummaryIsJoinedSentences | extractor.py:270-289 | once stripped, the summary is the stripped join of its sentences |
| AnswerExtractor.SpanPairIsOk | extractor.py:393-404 | a phrase answer of that summary paragraph, with a masked question and a start in the context, makes a valid pair |
| AnswerExtractor.EntityPairIsOk | extractor.py:473-484 | an entity of that summary paragraph, with a non-empty question and a start in the context, makes a valid pair |
| AnswerExtractor.PairsOkAppend | extractor.py:393-404 | appending a valid pair numbered next keeps the list valid |
| AnswerExtractor.SpanDraftSpec | extractor.py:371-404 | a phrase gives no pair exactly when it is empty, no clause holds it or no document segment holds it; a pair it gives has the running-number id, the phrase and tag, the masked question and an offset at which the joined document holds the phrase |
| AnswerExtractor.EntityDraftSpec | extractor.py:443-484 | an entity gives no pair exactly when it is empty, no question can be made or no document segment holds it; a pair it gives has the running-number id, the entity's text and type, its question and an offset at which the joined document holds the entity |
| AnswerExtractor.NumberedSnoc | extractor.py:371-404 | one more candidate extends the pairs by the pair it gives, numbered by the pairs before it |
| AnswerExtractor.NumberedOk | extractor.py:371-404 | when each pair a candidate can give is valid under its number, the numbered pairs are valid and numbered on |
| AnswerExtractor.SpanDraftsOk | extractor.py:371-404 | the pairs a paragraph's phrases give are valid and numbered on |
| AnswerExtractor.EntityDraftsOk | extractor.py:443-484 | the pairs a paragraph's entities give are valid and numbered on |
| AnswerExtractor.SpanStep | extractor.py:371-404 | one phrase appends exactly the pair `SpanDraft` gives under the next running number, or nothing; validity is kept |
| AnswerExtractor.SpanPairs | extractor.py:357-404 | the pairs are exactly `SummaryQAs`: nothing when the paragraph has no phrase of the tag or no clause, otherwise each phrase's pair in order, numbered on from `count0`; all are valid |
| AnswerExtractor.EntityStep | extractor.py:443-484 | one entity appends exactly the pair `EntityDraft` gives under the next running number, or nothing; validity is kept |
| AnswerExtractor.EntityPairs | extractor.py:436-484 | the pairs are exactly `SummaryQAs`: nothing when the paragraph has no clause, otherwise each entity's pair in order, numbered on from `count0`; all are valid |
| AnswerExtractor.SummaryPairs | extractor.py:353-404 | the re-rendered summary, and exactly the pairs `SummaryQAs` defines for the paragraph, all valid |
| AnswerExtractor.ItemPairsOkAppend | extractor.py:353-404 | the pairs of the next paragraph, numbered on, extend a valid list |
| AnswerExtractor.SummaryQAsOk | extractor.py:353-404 | the pairs of any summary paragraph are valid and numbered on |
| AnswerExtractor.ChainedSnoc | extractor.py:349-413 | one more paragraph extends the chained pairs by its pairs numbered on from those before it |
| AnswerExtractor.ItemQAsSnoc | extractor.py:349-413 | the pairs of the first `idx + 1` paragraphs are those of the first `idx` followed by paragraph `idx`'s, numbered on |
| AnswerExtractor.ChainedOk | extractor.py:349-413 | a chain of paragraphs whose every step is valid gives valid pairs numbered on |
| AnswerExtractor.ItemQAsOk | extractor.py:349-413 | the pairs of an item's paragraphs are valid and numbered on from the running count |
| AnswerExtractor.ItemCloze | extractor.py:349-413 | exactly `ItemRecord`: the item's title, every summary re-rendered, the context joined by spaces, and each paragraph's pairs in order numbered from the running count; the count advances by the number of pairs, and all pairs are valid |
| AnswerExtractor.ExtractAnswers | extractor.py:334-416 | exactly `Records`: one record per item, each built from its item with pairs numbered on from the records before it; the final count is the total number of pairs |
| AnswerExtractor.RecordsSnoc | extractor.py:406-413 | one more item extends the records by its record numbered on from the total so far, and adds its pairs to the total |
| AnswerExtractor.RecordsAppend | extractor.py:406-413 | appending a record built from the next item keeps all records valid and adds its pairs to the total |
| AnswerExtractor.RecordsOk | extractor.py:334-416 | the records are one per item, each built from its item, its pairs valid and numbered on from the records before it |
| AnswerExtractor.TotalQAsMonotone | extractor.py:404 | the running count never decreases |
| AnswerExtractor.PairNumbersDiffer | extractor.py:395 | two different pairs of a run carry different running numbers |
| AnswerExtractor.PairIdsUnique | extractor.py:475 | two different pairs of a run have different ids |
| ConstructUtils.GetPosPreOrder | vietlegalqa/modules/construct/utils.py:56-68 | `get_pos` renders, in pre-order, every node whose upper-cased label is the tag |
| ConstructUtils.GetPosPermutesExtractPos | vietlegalqa/modules/construct/utils.py:56-68 | `get_pos` finds the same phrases as the script's `extract_pos`, in another order |
| ConstructUtils.GetKeys | vietlegalqa/modules/construct/utils.py:71-81 | the phrases of each sentence, concatenated in sentence order |
| ConstructUtils.KeysPermutePosAnswers | vietlegalqa/modules/construct/utils.py:71-81 | `get_keys` is a permutation of the script's `extract_pos_answers` |
| ConstructUtils.ClausesConstituentPreOrder | vietlegalqa/modules/construct/utils.py:84-100 | the clauses are the "S" nodes with more than `threshold` words, rendered in pre-order |
| ConstructUtils.StripEach | vietlegalqa/modules/construct/utils.py:105 | each piece stripped, at its own position |
| ConstructUtils.StripEachAppend | vietlegalqa/modules/construct/utils.py:105 | stripping distributes over concatenation |
| ConstructUtils.CollectStripped | extractor.py:162 | stripping each rendered clause equals rendering and stripping at collection time |
| ConstructUtils.ClausesConstituentPermuteSClauses | vietlegalqa/modules/construct/utils.py:84-100 | once stripped, the constituent clauses are a permutation of the script's S clauses |
| ConstructUtils.StripPieces | vietlegalqa/modules/construct/utils.py:105 | the comprehension strips every piece |
| ConstructUtils.AbsorbPieces | vietlegalqa/modules/construct/utils.py:109-113 | the inner loop computes the absorbed clause |
| ConstructUtils.ExtractClausesComma | vietlegalqa/modules/construct/utils.py:103-117 | the loops compute the comma clauses of the sentence |
| ConstructUtils.CommaClausesNoComma | vietlegalqa/modules/construct/utils.py:107 | a sentence without a comma gives no clause |
| ConstructUtils.CommaClausesCount | vietlegalqa/modules/construct/utils.py:105-115 | with a comma, one clause per piece: commas plus one |
| ConstructUtils.CommaClausesKeepLong | vietlegalqa/modules/construct/utils.py:110-113 | a piece with at least `threshold` words is emitted unchanged |
| ConstructUtils.CommaClausesLast | vietlegalqa/modules/construct/utils.py:108-115 | the last clause is the last piece |
| ConstructUtils.AbsorbExtends | vietlegalqa/modules/construct/utils.py:111 | absorbing only appends to the clause |
| ConstructUtils.CommaClausesStartWithPiece | vietlegalqa/modules/construct/utils.py:108-115 | every clause starts with its own stripped piece |
| ConstructUtils.AbsorbStops | vietlegalqa/modules/construct/utils.py:110-113 | absorbing stops once the clause has `threshold` words, or all later pieces are absorbed |
| ConstructUtils.OneCharRepr | vietlegalqa/modules/construct/utils.py:111 | `repr('b')` is `'b'` and `str(0)` is `0` |
| ConstructUtils.AbsorbPrintsTuple | vietlegalqa/modules/construct/utils.py:109-111 | the appended text is the printed `(index, 'piece')` tuple: `"a , (0, 'b')"` |
| ConstructUtils.ExtractClauses | vietlegalqa/modules/construct/utils.py:120-151 | the clauses are sorted longest first, are a permutation of each sentence's constituent then comma clauses, keep discovery order within a length, and equal the stable sort |
| ConstructUtils.Hits | vietlegalqa/modules/construct/utils.py:170 | the score counts question tokens found in the segment, so it is at most the number of tokens |
| ConstructUtils.Candidates | vietlegalqa/modules/construct/utils.py:167-174 | one entry per segment, holding its index, score and the answer's `find` in it |
| ConstructUtils.GetAnswerStart | vietlegalqa/modules/construct/utils.py:158-178 | fails exactly on an empty context; otherwise the first segment with the highest score, with `find` of the answer in that segment, which is a real occurrence when not -1 |
| ConstructUtils.AnswerInOtherSegmentMissed | vietlegalqa/modules/construct/utils.py:167-178 | the best-scoring segment lacks the answer, so the result is -1 although another segment has it |
| ConstructUtils.SentenceTexts | vietlegalqa/modules/construct/utils.py:46-51 | one rendered text per sentence |
| ConstructUtils.GetSummaryNlp | vietlegalqa/modules/construct/utils.py:39-53 | the returned parse is the parse of the summary |
| ConstructUtils.SentenceTextsDefault | vietlegalqa/modules/construct/utils.py:48 | with a space separator, the rendering matches the script's |
| ConstructUtils.SummaryAgreesWithExtractor | vietlegalqa/modules/construct/utils.py:39-53 | once stripped, the packaged and script re-renderings of a summary agree |
| OrderedDict.Empty | vietlegalqa/data/utils.py:250 | the empty dictionary is well formed and has no keys |
| OrderedDict.Len | vietlegalqa/data/utils.py:258-262 | in a well-formed dictionary the length is the number of keys stored |
| OrderedDict.LenCountsEntries | vietlegalqa/data/utils.py:258-262 | in a well-formed dictionary the key list and the map have the same size |
| OrderedDict.Put | vietlegalqa/data/utils.py:300 | `d[k] = v` keeps the dictionary well formed; a new key goes to the end and existing keys keep their places |
| OrderedDict.PutLookup | vietlegalqa/data/utils.py:300 | after `d[k] = v`, `k` maps to `v` and every other key is unchanged |
| OrderedDict.Values | vietlegalqa/data/utils.py:272 | `list(d.values())` holds the value of each key in insertion order |
| OrderedDict.PutEachValid | vietlegalqa/data/utils.py:306-307 | inserting a list keeps the dictionary well formed and its existing keys in place |
| OrderedDict.PutEachHas | vietlegalqa/data/utils.py:306-307 | a key is present exactly when it was before or is the key of an inserted element |
| OrderedDict.PutEachLast | vietlegalqa/data/utils.py:306-307 | an element whose key no later element shares is the value under its key |
| OrderedDict.PutEachUntouched | vietlegalqa/data/utils.py:306-307 | a key no element has keeps its value |
| OrderedDict.PutEachMissing | vietlegalqa/data/utils.py:306-307 | a key that is absent and that no element has stays absent |
| OrderedDict.PutFreshValues | vietlegalqa/data/utils.py:313 | adding a fresh key appends its value to `values()` |
| OrderedDict.PutEachDistinct | vietlegalqa/data/utils.py:306-307 | inserting elements with distinct keys into an empty dictionary lists them back in order |
| DataUtils.ZipKeys | vietlegalqa/data/utils.py:243 | with distinct field names, `to_dict` has the fields as its keys, in order |
| DataUtils.ZipLookup | vietlegalqa/data/utils.py:243 | each field holds the value at its position |
| DataUtils.GetExtension | vietlegalqa/data/utils.py:72-118 | json names end in `.json` and pickle names in `.pkl`; other types give the stripped name; the result extends the stripped name |
| DataUtils.GetExtensionIdempotent | vietlegalqa/data/utils.py:104-118 | applying the helper twice is applying it once |
| DataUtils.GetExtensionExamples | vietlegalqa/data/utils.py:88-101 | `abc` becomes `abc.json`; `abc.pkl` stays `abc.pkl` |
| DataUtils.Entry.ToList | vietlegalqa/data/utils.py:229-239 | one value per field name, the id first |
| DataUtils.Entry.ToDict | vietlegalqa/data/utils.py:229-245 | `{"id": id}` |
| DataUtils.Dataset.constructor | vietlegalqa/data/utils.py:249-250 | an empty dictionary |
| DataUtils.Dataset.Len | vietlegalqa/data/utils.py:258-262 | the number of distinct ids stored |
| DataUtils.Dataset.GetItemInt | vietlegalqa/data/utils.py:271-272 | the entry at that insertion index, with negative indices from the end; an `IndexError` exactly when out of range |
| DataUtils.Dataset.GetItemStr | vietlegalqa/data/utils.py:269-270 | the default `Entry()` lacks its id argument, so the lookup always raises a `TypeError` |
| DataUtils.Dataset.Append | vietlegalqa/data/utils.py:298-302 | the entry is stored under its id; the length grows by one exactly when the id is new |
| DataUtils.Dataset.Extend | vietlegalqa/data/utils.py:304-309 | each entry is appended in turn |
| DataUtils.Dataset.ToList | vietlegalqa/data/utils.py:311-315 | each entry's dictionary, in insertion order |
| DocData.Article.ToDict | vietlegalqa/data/doc.py:54-64 | id, title, summary and context under their `DOC_FIELD` names, in that order |
| DocData.Article.ToList | vietlegalqa/data/doc.py:54-58 | one value per field name, the id first |
| DocData.ArticleToListInjective | vietlegalqa/data/doc.py:54-58 | no two different articles give the same list |
| DocData.Document.constructor | vietlegalqa/data/doc.py:67-97 | list form: each record under its id, where a record with no later duplicate is the stored one; column form: row `i` under key `i`, in order; no data: empty |
| DocData.Document.Append | vietlegalqa/data/doc.py:99-103 | the article is stored under its id and nothing else changes |
| DocData.Document.Extend | vietlegalqa/data/doc.py:105-110 | each article is appended in turn |
| QAData.QAPair.ToDict | vietlegalqa/data/qa.py:189-209 | the seven fields under their `QA_FIELD` names, in order |
| QAData.QAPair.ToList | vietlegalqa/data/qa.py:189-203 | one value per field name, the id first |
| QAData.ToListInjective | vietlegalqa/data/qa.py:189-203 | no two different pairs give the same list |
| QAData.QAFieldsDistinct | vietlegalqa/data/utils.py:13-23 | the QA field names are distinct |
| QAData.MakeQAPair | vietlegalqa/data/qa.py:8-25 | every field is stored as given, except that the type is stored upper-cased |
| QAData.MakeQAPairStored | vietlegalqa/data/qa.py:24 | rebuilding a pair whose type is already upper case gives the same pair |
| QAData.Cmp | vietlegalqa/data/qa.py:177-187 | 0 when equal, 1 when greater, -1 otherwise, and no value against a non-pair |
| QAData.Eq | vietlegalqa/data/qa.py:73-87 | true exactly against a pair that differs from this one at most in id, type and impossibility flag |
| QAData.Ne | vietlegalqa/data/qa.py:89-103 | true only against a pair, and then not `==`; against a pair, false only when the two share at least one of article, question, answer or start |
| QAData.Lt | vietlegalqa/data/qa.py:105-121 | true exactly against a pair when any one of article, question, answer or start is smaller |
| QAData.Gt | vietlegalqa/data/qa.py:123-139 | true exactly against a pair when any one of article, question, answer or start is greater |
| QAData.Le | vietlegalqa/data/qa.py:141-157 | true exactly against a pair when any one of article, question, answer or start is smaller or equal |
| QAData.Ge | vietlegalqa/data/qa.py:159-175 | true exactly against a pair when any one of article, question, answer or start is greater or equal |
| QAData.EqIgnoresIdKindFlag | vietlegalqa/data/qa.py:73-87 | equality ignores the id, the type and the impossibility flag |
| QAData.EqEquivalence | vietlegalqa/data/qa.py:73-87 | equality is reflexive, symmetric and transitive, and false against a non-pair, as is `!=` |
| QAData.NeIsNotNotEq | vietlegalqa/data/qa.py:89-103 | two pairs can be neither `==` nor `!=` |
| QAData.NeImpliesNotEq | vietlegalqa/data/qa.py:89-103 | `!=` implies not `==` |
| QAData.LtIrreflexiveGtFlipped | vietlegalqa/data/qa.py:105-175 | `<` and `>` are irreflexive; `a > b` is `b < a`, and `a >= b` is `b <= a` |
| QAData.LtBothWays | vietlegalqa/data/qa.py:105-121 | the cascade is not an order: two pairs can each be `<` the other, and each compares as 1 against the other |
| QAData.LeTotal | vietlegalqa/data/qa.py:141-157 | `<=` is reflexive and total |
| QAData.Records | vietlegalqa/data/qa.py:230-254 | the list form as given; the column form read across row by row; nothing for no data |
| QAData.Normalized | vietlegalqa/data/qa.py:233-252 | each record rebuilt as a `QAPair`, keeping its id |
| QAData.LastRecordWins | vietlegalqa/data/qa.py:230-254 | storing the records by id keeps, under each id, the last record with that id, type upper-cased |
| QAData.QADataset.constructor | vietlegalqa/data/qa.py:218-256 | each record stored under its id with an upper-cased type; a record with no later duplicate is the stored one |
| QAData.QADataset.Len | vietlegalqa/data/utils.py:258-262 | the number of distinct ids stored |
| QAData.QADataset.Append | vietlegalqa/data/qa.py:258-262 | the pair is stored under its id and nothing else changes |
| QAData.QADataset.Extend | vietlegalqa/data/qa.py:264-269 | each pair is appended in turn |
| Constructor.GuardNeverSkips | vietlegalqa/modules/construct/constructor.py:28-36 | the guard sums the lengths of the six tag names, which is 12, never 0 |
| Constructor.SpanOutcome | vietlegalqa/modules/construct/constructor.py:99-136 | fails exactly when the answer has a clause but the article has no context; emits exactly when the answer is non-empty, a clause holds it, the context is non-empty and `get_answer_start` on the masked question finds it; an emitted pair names the segment and start `get_answer_start` returns, is sound for the article, has the `tvpl` prefix and the tag's mask, and its question is the first clause with the answer masked |
| Constructor.EntityQuestion | vietlegalqa/modules/construct/constructor.py:53-72 | none exactly when no clause contains the entity and no sentence covers it; with a clause, that clause with the entity replaced by its type; otherwise the first sentence ending at or after the entity, its words with the entity replaced by its type |
| Constructor.EntityOutcome | vietlegalqa/modules/construct/constructor.py:48-97 | fails exactly when the entity has a question but the article has no context; emits exactly when the entity is non-empty, has a question, the context is non-empty and `get_answer_start` finds it; an emitted pair names the segment and start `get_answer_start` returns, is sound, and has the caller's prefix, the entity's type and text, and the entity's question |
| Constructor.SpanOutcomesSound | vietlegalqa/modules/construct/constructor.py:99-136 | every pair from a tag's answers is sound; a failure means an empty context |
| Constructor.TagOutcomesSound | vietlegalqa/modules/construct/constructor.py:47-136 | the same over every tag of `POS_TAGS` |
| Constructor.EntityOutcomesSound | vietlegalqa/modules/construct/constructor.py:48-97 | the same over the named entities |
| Constructor.SummaryOutcomesSound | vietlegalqa/modules/construct/constructor.py:22-136 | the same for everything one summary sentence gives |
| Constructor.DocumentDraftsSound | vietlegalqa/modules/construct/constructor.py:18-138 | every pair a run over a document would append is sound for one of its articles |
| Constructor.RunAppend | vietlegalqa/modules/construct/constructor.py:82-83 | running two outcome lists is running the first then, unless it raised, the second |
| Constructor.RunLoopStep | vietlegalqa/modules/construct/constructor.py:99-136 | one loop iteration either extends the completed prefix or ends the whole run with the same state |
| Constructor.RunFlag | vietlegalqa/modules/construct/constructor.py:74-83 | the run completes exactly when no outcome raises |
| Constructor.FreshId | vietlegalqa/modules/construct/constructor.py:87-97 | the id numbered by the dataset's length is new, so appending puts it last and keeps the numbering |
| Constructor.RunKeys | vietlegalqa/modules/construct/constructor.py:87-97 | a run keeps the dictionary well formed and numbered, and appends the numbered ids of the appended pairs |
| Constructor.RunKeepsOld | vietlegalqa/modules/construct/constructor.py:87-97 | a run never changes a pair already present |
| Constructor.RunNew | vietlegalqa/modules/construct/constructor.py:126-136 | each appended pair sits under its numbered id |
| Constructor.RunSpec | vietlegalqa/modules/construct/constructor.py:18-138 | after a run: well formed and numbered; complete exactly when no outcome raised; keys are the old keys plus the new numbered ids; old pairs kept; the `j`-th appended pair is under id `prefix_(n+j)` |
| Constructor.EmittedSound | vietlegalqa/modules/construct/constructor.py:18-138 | every pair appended by a run is sound for one of the document's articles: its answer occurs first at its start in the segment it names |
| Constructor.FailMeansEmptyContext | vietlegalqa/modules/construct/utils.py:176-178 | a run stops early only when some article has no context segments |
| Constructor.QAConstruct.constructor | vietlegalqa/modules/construct/constructor.py:12-16 | an empty dataset and the given annotators |
| Constructor.QAConstruct.Record | vietlegalqa/modules/construct/constructor.py:87-97 | the pair of an emitted draft is appended under `prefix_len`; nothing else changes |
| Constructor.QAConstruct.SpanAnswer | vietlegalqa/modules/construct/constructor.py:99-124 | computes the outcome of one span answer |
| Constructor.QAConstruct.EntityAnswer | vietlegalqa/modules/construct/constructor.py:49-85 | computes the outcome of one named entity |
| Constructor.QAConstruct.SpanAnswers | vietlegalqa/modules/construct/constructor.py:99-136 | the loop does exactly the run of the answers' outcomes |
| Constructor.QAConstruct.TagAnswers | vietlegalqa/modules/construct/constructor.py:47-136 | the loop over the tags does exactly the run of their outcomes |
| Constructor.QAConstruct.EntityAnswers | vietlegalqa/modules/construct/constructor.py:48-97 | the loop over the entities does exactly the run of their outcomes |
| Constructor.QAConstruct.TagKeys | vietlegalqa/modules/construct/constructor.py:28-31 | `keys[tag]` holds `get_keys` of each tag of `POS_TAGS` |
| Constructor.QAConstruct.Summary | vietlegalqa/modules/construct/constructor.py:22-136 | one summary sentence does exactly the run of its outcomes |
| Constructor.QAConstruct.Article | vietlegalqa/modules/construct/constructor.py:21-136 | one article does exactly the run of its summaries' outcomes |
| Constructor.QAConstruct.Call | vietlegalqa/modules/construct/constructor.py:18-138 | the dataset after `__call__` is the run of the document's outcomes; a stop means an article without context |
| ViquadCloze.GetLabels | viquad_to_cloze.py:67-74 | a leaf gives no label; any label found is one of `POS_TAGS` |
| ViquadCloze.LeftEdge | viquad_to_cloze.py:72-74 | the nodes visited down the first-child path are all internal |
| ViquadCloze.FirstTag | viquad_to_cloze.py:70-71 | none exactly when no node carries a tag; otherwise the tag of the first tagged node |
| ViquadCloze.GetLabelsLeftEdge | viquad_to_cloze.py:67-74 | `get_labels` is the first tag on the first-child path of the tree |
| ViquadCloze.OnlyFirstChildExplored | viquad_to_cloze.py:73-74 | the `for ... return` visits only the first child: an `NP` in the second child is missed |
| ViquadCloze.BestIndex | viquad_to_cloze.py:86 | the first position, among the first `n`, of a most frequent element |
| ViquadCloze.Mode | viquad_to_cloze.py:86 | `statistics.mode`: an element of the list, as frequent as any, and the first in list order among the most frequent elements |
| ViquadCloze.ModeUnique | viquad_to_cloze.py:86 | those three properties determine the mode |
| ViquadCloze.Labels | viquad_to_cloze.py:78-82 | every collected label is one of `POS_TAGS` |
| ViquadCloze.LabelsHas | viquad_to_cloze.py:80-82 | every sentence's label is collected |
| ViquadCloze.LabelsFrom | viquad_to_cloze.py:80-82 | every collected label is some sentence's label |
| ViquadCloze.GetPos | viquad_to_cloze.py:76-87 | the loop computes the answer type of the parsed text |
| ViquadCloze.GetPosSpec | viquad_to_cloze.py:76-87 | `MISCELLANEOUS` exactly when no sentence has a label; otherwise the mask of the most frequent label, which some sentence has |
| ViquadCloze.EndSumMonotone | viquad_to_cloze.py:101 | the running end offset never decreases |
| ViquadCloze.FirstTakenFrom | viquad_to_cloze.py:98-103 | the first sentence whose running end reaches the start and whose text contains the answer, or -1 |
| ViquadCloze.GetCloze | viquad_to_cloze.py:96-104 | the loop computes the cloze of the entry |
| ViquadCloze.ClozeAfterStart | viquad_to_cloze.py:101-103 | from the sentence where the start is reached, the first sentence containing the answer is masked; -1 exactly when none does |
| ViquadCloze.ClozeMasks | viquad_to_cloze.py:96-104 | the type appears in the cloze when a sentence is taken or the context contains the answer; when no sentence is taken and the context lacks the answer, the context is returned unchanged |

## Left out

- The annotators (stanza's constituency parser, POS tagger and NER, and the `underthesea` tokenizers) are parameters: `parse`, `annotate` and the parsed trees given as inputs. Their output is taken as given.
- Stop-word tests are a parameter `isStop`. `is_stop` in `construct/utils.py` compares a `Word` object with a list of strings.
- File, JSON and pickle input and output, logging and progress bars are left out: `to_json`, `to_pickle`, `load`, `push_to_hub` and the command-line `main`.
- `get_ner`, `get_type` and `get_type_batch` in `viquad_to_cloze.py` are left out. They score the NER output with ROUGE, a floating-point metric over a model's output.
- The batch and `__call__` wrappers of `viquad_to_cloze.py` over Hugging Face datasets are left out.
- `get_cloze` receives its tokenizer's sentences, with each sentence's text and last token end offset, as an input.
- PyStr.Upper: only ASCII letters are upper-cased, not the rest of Unicode (Vietnamese letters keep their case in the model).
- Strings are sequences of characters. There is no Unicode normalisation.
- The records' optional `None` fields are not modelled. `QAPair(type=None)` would raise on `None.upper()`.
- The records' `__call__` and `__getitem__` key dispatch, `__str__` and `__repr__` are left out.
- `QAPair.get_article` and `QADataset.get_article` are left out.
- The constructors of `Document` and `QADataset` take a custom `field` list. The model uses the default field names only.
- DocData.Document.constructor and QAData.QADataset.constructor: they require the columns to be long enough for every id. The `IndexError` a short column raises is not modelled.
- `Dataset.__getitem__` with a slice and `__iter__` are left out. The run iterates `Values` of the document directly.
- Constructor.QAConstruct.Call stops at the first `IndexError` raised by `get_answer_start` on an article without context. The exception itself is the `false` result.
- AnswerExtractor: the `try/except` blocks that log an error and go on are not modelled. A failed step there would reuse the previous iteration's variables. The model treats annotation as total.
- ConstructUtils.GetSummaryNlp: it states only the parse. The re-rendered text is related to the script's rendering by `SummaryAgreesWithExtractor`.
- PyStr.StrRepr: `repr` is modelled with its quote choice and the escapes of backslash, the quote, and ASCII control characters. Python's escapes of non-printable characters above U+007F are not modelled.
