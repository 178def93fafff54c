/** The cloze builder's answer extractor (`Extractor` in extractor.py; the
    older answer_extraction.py holds the same methods). From each summary it
    takes candidate answers (phrases of one part-of-speech tag, or named
    entities), masks an answer inside the shortest clause that holds it to make
    a question, and locates the answer in the source document by a lemma
    overlap ranking. The annotator is a parameter: `parse` stands for the
    constituency parser and `annotate` for the words (with lemmas) of the
    first sentence the part-of-speech tagger finds in a text. */
module AnswerExtractor {
  import opened Wrappers
  import opened PyStr
  import opened StableSort
  import opened ParseTree

  /** `extract_clauses` asks for "S" nodes with more than three words. */
  const ClauseThreshold := 3
  /** A comma fragment shorter than this many characters absorbs the next. */
  const MinFragment := 10
  /** The mask a part-of-speech answer is replaced with in its question. */
  const Placeholder := "PLACEHOLDER"

  // ---------------------------------------------------------------------
  // Clauses from "S" nodes: `extract_s_clauses`
  // ---------------------------------------------------------------------

  predicate IsLongClause(t: Tree, threshold: int) {
    t.name == "S" && |LeafLabels(t)| > threshold
  }

  function LongClause(threshold: int): Tree -> bool {
    (t: Tree) => IsLongClause(t, threshold)
  }

  /** The words of a clause joined by spaces, then stripped. */
  function ClauseText(t: Tree): string {
    Strip(TreeToText(t, " "))
  }

  /** The clauses of the subtrees first, then the node itself. */
  function SClauses(node: Tree, threshold: int): seq<string>
    decreases node, 1
  {
    if node.IsLeaf() then []
    else
      SClausesOf(node.children, threshold)
      + (if IsLongClause(node, threshold) then [ClauseText(node)] else [])
  }

  function SClausesOf(ts: seq<Tree>, threshold: int): seq<string>
    decreases ts, 0
  {
    if ts == [] then [] else SClauses(ts[0], threshold) + SClausesOf(ts[1..], threshold)
  }

  /** The clauses are the texts of the "S" nodes with more than `threshold`
      words, in post-order. */
  lemma {:induction false} SClausesPostOrder(t: Tree, threshold: int)
    ensures SClauses(t, threshold) == Collect(PostOrder(t), LongClause(threshold), ClauseText)
    decreases t, 1
  {
    if !t.IsLeaf() {
      SClausesPostOrderOf(t.children, threshold);
      CollectAppend(PostOrderOf(t.children), [t], LongClause(threshold), ClauseText);
      assert [t][1..] == [];
    }
  }

  lemma {:induction false} SClausesPostOrderOf(ts: seq<Tree>, threshold: int)
    ensures SClausesOf(ts, threshold) == Collect(PostOrderOf(ts), LongClause(threshold), ClauseText)
    decreases ts, 0
  {
    if ts != [] {
      SClausesPostOrder(ts[0], threshold);
      SClausesPostOrderOf(ts[1..], threshold);
      CollectAppend(PostOrder(ts[0]), PostOrderOf(ts[1..]), LongClause(threshold), ClauseText);
    }
  }

  /** A subtree of at most `threshold` words yields no clause. */
  lemma {:induction false} SClausesShort(t: Tree, threshold: int)
    requires |LeafLabels(t)| <= threshold
    ensures SClauses(t, threshold) == []
    decreases t, 1
  {
    if !t.IsLeaf() {
      forall k | 0 <= k < |t.children| ensures |LeafLabels(t.children[k])| <= threshold {
        LeafCountOfChild(t, k);
      }
      SClausesShortOf(t.children, threshold);
    }
  }

  lemma {:induction false} SClausesShortOf(ts: seq<Tree>, threshold: int)
    requires forall k :: 0 <= k < |ts| ==> |LeafLabels(ts[k])| <= threshold
    ensures SClausesOf(ts, threshold) == []
    decreases ts, 0
  {
    if ts != [] {
      SClausesShort(ts[0], threshold);
      SClausesShortOf(ts[1..], threshold);
    }
  }

  // ---------------------------------------------------------------------
  // Phrases of one tag: `extract_pos`, `extract_pos_answers`
  // ---------------------------------------------------------------------

  function HasTag(tag: string): Tree -> bool {
    (t: Tree) => tag == Upper(t.name)
  }

  /** The words of a phrase joined by spaces (not stripped). */
  function SpanText(t: Tree): string {
    TreeToText(t, " ")
  }

  function ExtractPos(node: Tree, tag: string): seq<string>
    decreases node, 1
  {
    if node.IsLeaf() then []
    else ExtractPosOf(node.children, tag) + (if tag == Upper(node.name) then [SpanText(node)] else [])
  }

  function ExtractPosOf(ts: seq<Tree>, tag: string): seq<string>
    decreases ts, 0
  {
    if ts == [] then [] else ExtractPos(ts[0], tag) + ExtractPosOf(ts[1..], tag)
  }

  /** The spans are the texts of the internal nodes whose upper-cased label is
      the tag, in post-order; a bare word is never a span. */
  lemma {:induction false} ExtractPosPostOrder(t: Tree, tag: string)
    ensures ExtractPos(t, tag) == Collect(PostOrder(t), HasTag(tag), SpanText)
    decreases t, 1
  {
    if !t.IsLeaf() {
      ExtractPosPostOrderOf(t.children, tag);
      CollectAppend(PostOrderOf(t.children), [t], HasTag(tag), SpanText);
      assert [t][1..] == [];
    }
  }

  lemma {:induction false} ExtractPosPostOrderOf(ts: seq<Tree>, tag: string)
    ensures ExtractPosOf(ts, tag) == Collect(PostOrderOf(ts), HasTag(tag), SpanText)
    decreases ts, 0
  {
    if ts != [] {
      ExtractPosPostOrder(ts[0], tag);
      ExtractPosPostOrderOf(ts[1..], tag);
      CollectAppend(PostOrder(ts[0]), PostOrderOf(ts[1..]), HasTag(tag), SpanText);
    }
  }

  /** A phrase node over a single word is a span of its own: only bare leaves
      are skipped. */
  lemma SingleWordPhrase(w: string)
    ensures ExtractPos(Node("np", [Node(w, [])]), "NP") == [w]
  {
    var leaf := Node(w, []);
    assert LeafLabelsOf([leaf]) == [w] by {
      assert [leaf][1..] == [];
    }
    assert ExtractPosOf([leaf], "NP") == [] by {
      assert [leaf][1..] == [];
    }
    assert Upper("np") == "NP";
  }

  /** The spans of every sentence, in order. */
  function PosAnswers(sentences: seq<Sentence>, tag: string): seq<string> {
    if sentences == [] then []
    else PosAnswers(sentences[..|sentences| - 1], tag) + ExtractPos(sentences[|sentences| - 1].tree, tag)
  }

  /** `extract_pos_answers`: the loop over the sentences. */
  method ExtractPosAnswers(doc: NlpDoc, tag: string) returns (spans: seq<string>)
    ensures spans == PosAnswers(doc.sentences, tag)
  {
    spans := [];
    for i := 0 to |doc.sentences|
      invariant spans == PosAnswers(doc.sentences[..i], tag)
    {
      spans := spans + ExtractPos(doc.sentences[i].tree, tag);
      assert doc.sentences[..i + 1][..i] == doc.sentences[..i];
    }
    assert doc.sentences[..|doc.sentences|] == doc.sentences;
  }

  // ---------------------------------------------------------------------
  // Comma fragments: `extract_comma_clauses`
  // ---------------------------------------------------------------------

  /** `", ".join([a.strip(), b.strip()])`. */
  function Glue(a: string, b: string): string {
    Strip(a) + ", " + Strip(b)
  }

  /** The inner `while` loop: as long as the fragment is shorter than
      `MinFragment` characters and pieces remain, the next piece is glued on.
      Returns the fragment and the advanced piece counter. */
  function Merge(clause: string, parts: seq<string>, idx: nat): (string, nat)
    decreases |parts| - idx
  {
    if |clause| < MinFragment && idx < |parts| then Merge(Glue(clause, parts[idx]), parts, idx + 1)
    else (clause, idx)
  }

  /** The outer loop from piece `i` on, with the shared counter at `idx`: the
      counter moves past the current piece, then the fragment absorbs pieces
      from the counter on. The counter is never reset, so a piece absorbed by
      an earlier fragment is still emitted as a fragment of its own. */
  function Emit(parts: seq<string>, i: nat, idx: nat): seq<string>
    decreases |parts| - i
  {
    if i >= |parts| then []
    else
      var m := Merge(parts[i], parts, idx + 1);
      [m.0] + Emit(parts, i + 1, m.1)
  }

  /** The fragments of a sentence text: none when it holds no comma. */
  function CommaFragments(text: string): seq<string> {
    var parts := Split(text, ',');
    if |parts| > 1 then Emit(parts, 0, 0) else []
  }

  method CommaClauses(tree: Tree) returns (clauses: seq<string>)
    ensures clauses == CommaFragments(TreeToText(tree, " "))
  {
    clauses := [];
    var parts := Split(TreeToText(tree, " "), ',');
    if |parts| > 1 {
      var idx := 0;
      for i := 0 to |parts|
        invariant clauses + Emit(parts, i, idx) == Emit(parts, 0, 0)
      {
        ghost var before := idx;
        idx := idx + 1;
        var clause := parts[i];
        while |clause| < MinFragment && idx < |parts|
          invariant Merge(clause, parts, idx) == Merge(parts[i], parts, before + 1)
          decreases |parts| - idx
        {
          clause := Glue(clause, parts[idx]);
          idx := idx + 1;
        }
        assert Merge(parts[i], parts, before + 1) == (clause, idx);
        assert Emit(parts, i, before) == [clause] + Emit(parts, i + 1, idx);
        clauses := clauses + [clause];
      }
    }
  }

  /** The counter only moves forward. */
  lemma {:induction false} MergeAdvances(clause: string, parts: seq<string>, idx: nat)
    ensures Merge(clause, parts, idx).1 >= idx
    decreases |parts| - idx
  {
    if |clause| < MinFragment && idx < |parts| {
      MergeAdvances(Glue(clause, parts[idx]), parts, idx + 1);
    }
  }

  /** When the counter did not move, the fragment is unchanged. */
  lemma MergeUnmoved(clause: string, parts: seq<string>, idx: nat)
    ensures Merge(clause, parts, idx).1 == idx ==> Merge(clause, parts, idx).0 == clause
  {
    if |clause| < MinFragment && idx < |parts| {
      MergeAdvances(Glue(clause, parts[idx]), parts, idx + 1);
    }
  }

  lemma GlueEndsWith(a: string, b: string)
    ensures EndsWith(Glue(a, b), ", " + Strip(b))
  {
    EndsWithSeparated(Strip(a), ", ", Strip(b));
  }

  /** When the counter moved, the fragment ends with the last piece absorbed. */
  lemma {:induction false} MergeEndsWithLastAbsorbed(clause: string, parts: seq<string>, idx: nat)
    ensures var m := Merge(clause, parts, idx);
      m.1 > idx ==> m.1 <= |parts| && EndsWith(m.0, ", " + Strip(parts[m.1 - 1]))
    decreases |parts| - idx
  {
    if |clause| < MinFragment && idx < |parts| {
      var next := Glue(clause, parts[idx]);
      var m := Merge(next, parts, idx + 1);
      assert Merge(clause, parts, idx) == m;
      MergeEndsWithLastAbsorbed(next, parts, idx + 1);
      MergeAdvances(next, parts, idx + 1);
      if m.1 == idx + 1 {
        MergeUnmoved(next, parts, idx + 1);
        GlueEndsWith(clause, parts[idx]);
      }
    }
  }

  /** The loop stops only at ten characters or when the pieces run out. */
  lemma {:induction false} MergeStops(clause: string, parts: seq<string>, idx: nat)
    ensures var m := Merge(clause, parts, idx);
      |m.0| >= MinFragment || m.1 >= |parts|
    decreases |parts| - idx
  {
    if |clause| < MinFragment && idx < |parts| {
      var next := Glue(clause, parts[idx]);
      assert Merge(clause, parts, idx) == Merge(next, parts, idx + 1);
      MergeStops(next, parts, idx + 1);
    }
  }

  /** One fragment per piece from `i` on. */
  lemma {:induction false} EmitLength(parts: seq<string>, i: nat, idx: nat)
    requires i <= |parts|
    ensures |Emit(parts, i, idx)| == |parts| - i
    decreases |parts| - i
  {
    if i < |parts| {
      EmitLength(parts, i + 1, Merge(parts[i], parts, idx + 1).1);
    }
  }

  /** Fragment `k` is the `k`-th merge result, followed by the rest. */
  lemma EmitUnfold(parts: seq<string>, i: nat, idx: nat)
    requires i < |parts|
    ensures var m := Merge(parts[i], parts, idx + 1);
      Emit(parts, i, idx) == [m.0] + Emit(parts, i + 1, m.1)
  {
  }

  /** A piece of at least ten characters is emitted unchanged. */
  lemma {:induction false} EmitKeepsLong(parts: seq<string>, i: nat, idx: nat)
    requires i <= |parts|
    ensures forall k :: 0 <= k < |Emit(parts, i, idx)| && i + k < |parts| && |parts[i + k]| >= MinFragment ==>
              Emit(parts, i, idx)[k] == parts[i + k]
    decreases |parts| - i
  {
    if i < |parts| {
      var m := Merge(parts[i], parts, idx + 1);
      EmitKeepsLong(parts, i + 1, m.1);
      EmitUnfold(parts, i, idx);
      if |parts[i]| >= MinFragment {
        assert m == (parts[i], idx + 1);
      }
    }
  }

  /** The last piece is emitted unchanged, because the counter has passed
      every piece by then. */
  lemma {:induction false} EmitLast(parts: seq<string>, i: nat, idx: nat)
    requires i < |parts| && idx >= i
    ensures |Emit(parts, i, idx)| == |parts| - i
    ensures Emit(parts, i, idx)[|Emit(parts, i, idx)| - 1] == parts[|parts| - 1]
    decreases |parts| - i
  {
    EmitLength(parts, i, idx);
    var m := Merge(parts[i], parts, idx + 1);
    EmitUnfold(parts, i, idx);
    if i + 1 < |parts| {
      MergeAdvances(parts[i], parts, idx + 1);
      EmitLast(parts, i + 1, m.1);
    } else {
      assert m == (parts[i], idx + 1);
    }
  }

  /** A merged fragment either reached ten characters or ran to the last
      piece. */
  lemma MergedFragment(parts: seq<string>, i: nat, idx: nat)
    requires i < |parts|
    ensures var c := Merge(parts[i], parts, idx + 1).0;
      c == parts[i] || |c| >= MinFragment || EndsWith(c, ", " + Strip(parts[|parts| - 1]))
  {
    MergeAdvances(parts[i], parts, idx + 1);
    MergeUnmoved(parts[i], parts, idx + 1);
    MergeEndsWithLastAbsorbed(parts[i], parts, idx + 1);
    MergeStops(parts[i], parts, idx + 1);
  }

  lemma {:induction false} EmitFragments(parts: seq<string>, i: nat, idx: nat)
    requires i <= |parts|
    ensures forall k :: 0 <= k < |Emit(parts, i, idx)| && i + k < |parts| ==>
              Emit(parts, i, idx)[k] == parts[i + k] || |Emit(parts, i, idx)[k]| >= MinFragment
              || EndsWith(Emit(parts, i, idx)[k], ", " + Strip(parts[|parts| - 1]))
    decreases |parts| - i
  {
    if i < |parts| {
      var m := Merge(parts[i], parts, idx + 1);
      var e, rest := Emit(parts, i, idx), Emit(parts, i + 1, m.1);
      EmitFragments(parts, i + 1, m.1);
      EmitUnfold(parts, i, idx);
      MergedFragment(parts, i, idx);
      forall k | 0 <= k < |e| && i + k < |parts|
        ensures e[k] == parts[i + k] || |e[k]| >= MinFragment || EndsWith(e[k], ", " + Strip(parts[|parts| - 1]))
      {
        if k > 0 {
          assert e[k] == rest[k - 1];
        }
      }
    }
  }

  /** A sentence without a comma yields no fragment. */
  lemma CommaFragmentsNoComma(text: string)
    requires ',' !in text
    ensures CommaFragments(text) == []
  {
    SplitShape(text, ',');
  }

  /** With a comma, there is one fragment per comma-separated piece. */
  lemma CommaFragmentsCount(text: string)
    requires ',' in text
    ensures |CommaFragments(text)| == |Split(text, ',')| == CountChar(text, ',') + 1
  {
    SplitShape(text, ',');
    EmitLength(Split(text, ','), 0, 0);
  }

  /** A piece of at least ten characters comes out as its own fragment,
      unchanged. */
  lemma CommaFragmentsKeepLong(text: string, k: nat)
    requires ',' in text
    requires k < |Split(text, ',')| && |Split(text, ',')[k]| >= MinFragment
    ensures k < |CommaFragments(text)| && CommaFragments(text)[k] == Split(text, ',')[k]
  {
    CommaFragmentsCount(text);
    EmitKeepsLong(Split(text, ','), 0, 0);
  }

  /** The last fragment is the last piece, unchanged. */
  lemma CommaFragmentsLast(text: string)
    requires ',' in text
    ensures CommaFragments(text) != []
    ensures CommaFragments(text)[|CommaFragments(text)| - 1] == Split(text, ',')[|Split(text, ',')| - 1]
  {
    var parts := Split(text, ',');
    SplitShape(text, ',');
    assert |parts| > 1;
    EmitLast(parts, 0, 0);
  }

  /** Every fragment is its own piece, or reached ten characters, or absorbed
      pieces up to the end of the sentence. */
  lemma CommaFragmentsMerged(text: string, k: nat)
    requires ',' in text
    requires k < |Split(text, ',')|
    ensures k < |CommaFragments(text)|
    ensures var c := CommaFragments(text)[k];
      var parts := Split(text, ',');
      c == parts[k] || |c| >= MinFragment || EndsWith(c, ", " + Strip(parts[|parts| - 1]))
  {
    CommaFragmentsCount(text);
    EmitFragments(Split(text, ','), 0, 0);
  }

  lemma GlueShortPieces()
    ensures Glue("a", "b") == "a, b"
    ensures Glue("a, b", "c") == "a, b, c"
  {
    StripTrimmed("a");
    StripTrimmed("b");
    StripTrimmed("a, b");
    StripTrimmed("c");
  }

  lemma MergeShortPieces()
    ensures Merge("a", ["a", "b", "c"], 1) == ("a, b, c", 3)
  {
    var parts := ["a", "b", "c"];
    GlueShortPieces();
    assert Merge("a", parts, 1) == Merge("a, b", parts, 2);
    assert Merge("a, b", parts, 2) == Merge("a, b, c", parts, 3);
  }

  /** A short piece absorbed by the fragment before it is emitted again. */
  lemma ShortPieceReemitted()
    ensures Emit(["a", "b", "c"], 0, 0) == ["a, b, c", "b", "c"]
  {
    var parts := ["a", "b", "c"];
    MergeShortPieces();
    EmitUnfold(parts, 0, 0);
    EmitUnfold(parts, 1, 3);
    EmitUnfold(parts, 2, 4);
    assert Merge("b", parts, 4) == ("b", 4);
    assert Merge("c", parts, 5) == ("c", 5);
  }

  // ---------------------------------------------------------------------
  // All clauses of a summary: `extract_clauses`
  // ---------------------------------------------------------------------

  function Length(s: string): int {
    |s|
  }

  /** The "S" clauses then the comma fragments of each sentence, in sentence
      order, before sorting. */
  function AllClauses(sentences: seq<Sentence>): seq<string> {
    if sentences == [] then []
    else
      var last := sentences[|sentences| - 1];
      AllClauses(sentences[..|sentences| - 1])
      + SClauses(last.tree, ClauseThreshold) + CommaFragments(TreeToText(last.tree, " "))
  }

  /** The clauses of a summary paragraph, shortest first. */
  function SortedClauses(sentences: seq<Sentence>): seq<string> {
    SortBy(AllClauses(sentences), Length)
  }

  /** The clauses sorted by length, shortest first; the sort is stable, so
      clauses of one length keep their order of discovery. */
  method ExtractClauses(doc: NlpDoc) returns (clauses: seq<string>)
    ensures SortedBy(clauses, Length)
    ensures multiset(clauses) == multiset(AllClauses(doc.sentences))
    ensures clauses == SortedClauses(doc.sentences)
  {
    var found: seq<string> := [];
    for i := 0 to |doc.sentences|
      invariant found == AllClauses(doc.sentences[..i])
    {
      var sent := doc.sentences[i];
      var comma := CommaClauses(sent.tree);
      found := found + SClauses(sent.tree, ClauseThreshold) + comma;
      assert doc.sentences[..i + 1][..i] == doc.sentences[..i];
    }
    assert doc.sentences[..|doc.sentences|] == doc.sentences;
    clauses := SortBy(found, Length);
  }

  /** The sort is stable: the clauses of each length keep their order of
      discovery. */
  lemma SortedClausesStable(sentences: seq<Sentence>, n: int)
    ensures WithKey(SortedClauses(sentences), Length, n) == WithKey(AllClauses(sentences), Length, n)
  {
    SortByStable(AllClauses(sentences), Length, n);
  }

  // ---------------------------------------------------------------------
  // Locating the answer in the document: `get_answer_start`
  // ---------------------------------------------------------------------

  /** The lemmas of the question's words that are not stop words. */
  function QuestionTokens(words: seq<Word>, isStop: Word -> bool): seq<string> {
    if words == [] then []
    else
      var w := words[|words| - 1];
      QuestionTokens(words[..|words| - 1], isStop) + (if isStop(w) then [] else [w.baseForm])
  }

  /** The number of words of a segment that are not stop words and whose lemma
      is one of the question's tokens. */
  function Overlap(words: seq<Word>, qTokens: seq<string>, isStop: Word -> bool): nat {
    if words == [] then 0
    else
      var w := words[|words| - 1];
      Overlap(words[..|words| - 1], qTokens, isStop) + (if !isStop(w) && w.baseForm in qTokens then 1 else 0)
  }

  datatype Ranked = Ranked(score: int, segment: string)

  function Score(r: Ranked): int {
    r.score
  }

  /** The segments that contain the answer, in document order, each with its
      overlap score. */
  function Rank(context: seq<string>, answer: string, qTokens: seq<string>,
                annotate: string -> seq<Word>, isStop: Word -> bool): (r: seq<Ranked>)
    ensures forall e :: e in r ==> e.segment in context && Contains(e.segment, answer)
    ensures r == [] <==> forall k :: 0 <= k < |context| ==> !Contains(context[k], answer)
  {
    if context == [] then []
    else
      var seg := context[|context| - 1];
      var front := context[..|context| - 1];
      var r := Rank(front, answer, qTokens, annotate, isStop)
        + (if Find(seg, answer) != -1 then [Ranked(Overlap(annotate(seg), qTokens, isStop), seg)] else []);
      assert forall k :: 0 <= k < |front| ==> front[k] == context[k];
      r
  }

  /** The loop that collects the question's tokens. */
  method CollectTokens(words: seq<Word>, isStop: Word -> bool) returns (qTokens: seq<string>)
    ensures qTokens == QuestionTokens(words, isStop)
  {
    qTokens := [];
    for i := 0 to |words|
      invariant qTokens == QuestionTokens(words[..i], isStop)
    {
      if !isStop(words[i]) {
        qTokens := qTokens + [words[i].baseForm];
      }
      assert words[..i + 1][..i] == words[..i];
    }
    assert words[..|words|] == words;
  }

  /** The loop that scores one segment. */
  method CountOverlap(words: seq<Word>, qTokens: seq<string>, isStop: Word -> bool) returns (score: nat)
    ensures score == Overlap(words, qTokens, isStop)
  {
    score := 0;
    for k := 0 to |words|
      invariant score == Overlap(words[..k], qTokens, isStop)
    {
      if !isStop(words[k]) && words[k].baseForm in qTokens {
        score := score + 1;
      }
      assert words[..k + 1][..k] == words[..k];
    }
    assert words[..|words|] == words;
  }

  /** The loop that builds the ranking. */
  method RankSegments(context: seq<string>, answer: string, qTokens: seq<string>,
                      annotate: string -> seq<Word>, isStop: Word -> bool) returns (rank: seq<Ranked>)
    ensures rank == Rank(context, answer, qTokens, annotate, isStop)
  {
    rank := [];
    for c := 0 to |context|
      invariant rank == Rank(context[..c], answer, qTokens, annotate, isStop)
    {
      var seg := context[c];
      if Find(seg, answer) != -1 {
        var score := CountOverlap(annotate(seg), qTokens, isStop);
        rank := rank + [Ranked(score, seg)];
      }
      assert context[..c + 1][..c] == context[..c];
    }
    assert context[..|context|] == context;
  }

  /** Finding a segment in the joined document, then the answer in the
      segment, finds the answer in the joined document. */
  lemma LocateThroughSegment(context: seq<string>, answer: string, seg: string)
    requires seg in context && Contains(seg, answer)
    ensures Find(Join(" ", context), seg) >= 0 && Find(seg, answer) >= 0
    ensures OccursAt(Join(" ", context), answer, Find(Join(" ", context), seg) + Find(seg, answer))
  {
    var k :| 0 <= k < |context| && context[k] == seg;
    var joined := Join(" ", context);
    JoinContainsPart(" ", context, k);
    assert Contains(joined, seg);
    OccursAtTransitive(joined, seg, answer, Find(joined, seg), Find(seg, answer));
  }

  /** The answer's offset in the space-joined document, found through the
      containing segment with the LOWEST overlap (the first such segment on a
      tie); -1 when no segment holds the answer. */
  function AnswerStart(answer: string, question: string, context: seq<string>,
                       annotate: string -> seq<Word>, isStop: Word -> bool): int
  {
    var rank := Rank(context, answer, QuestionTokens(annotate(question), isStop), annotate, isStop);
    if rank == [] then -1
    else
      var best := rank[FirstMinIndex(rank, Score)].segment;
      Find(Join(" ", context), best) + Find(best, answer)
  }

  /** The offset is -1 exactly when no segment holds the answer; otherwise
      the joined document holds the answer at it. */
  lemma AnswerStartSpec(answer: string, question: string, context: seq<string>,
                        annotate: string -> seq<Word>, isStop: Word -> bool)
    ensures var start := AnswerStart(answer, question, context, annotate, isStop);
      (start == -1 <==> forall k :: 0 <= k < |context| ==> !Contains(context[k], answer))
      && (start != -1 ==> OccursAt(Join(" ", context), answer, start))
  {
    var rank := Rank(context, answer, QuestionTokens(annotate(question), isStop), annotate, isStop);
    if rank != [] {
      var best := rank[FirstMinIndex(rank, Score)];
      assert best in rank;
      LocateThroughSegment(context, answer, best.segment);
    }
  }

  /** `get_answer_start`: the ranking is sorted ascending and its head is
      taken. */
  method GetAnswerStart(answer: string, question: string, context: seq<string>,
                        annotate: string -> seq<Word>, isStop: Word -> bool) returns (start: int)
    ensures start == -1 <==> forall k :: 0 <= k < |context| ==> !Contains(context[k], answer)
    ensures start != -1 ==> OccursAt(Join(" ", context), answer, start)
    ensures var rank := Rank(context, answer, QuestionTokens(annotate(question), isStop), annotate, isStop);
      start != -1 ==> (rank != [] &&
        var best := rank[FirstMinIndex(rank, Score)].segment;
        start == Find(Join(" ", context), best) + Find(best, answer))
    ensures start == AnswerStart(answer, question, context, annotate, isStop)
  {
    var qTokens := CollectTokens(annotate(question), isStop);
    var rank := RankSegments(context, answer, qTokens, annotate, isStop);
    start := -1;
    if |rank| != 0 {
      var sorted := SortBy(rank, Score);
      SortByHead(rank, Score);
      var refined := sorted[0].segment;
      assert rank[FirstMinIndex(rank, Score)] in rank;
      LocateThroughSegment(context, answer, refined);
      start := Find(Join(" ", context), refined) + Find(refined, answer);
    }
  }

  // ---------------------------------------------------------------------
  // Question synthesis
  // ---------------------------------------------------------------------

  /** The index of the first clause containing `answer`, or -1. */
  function FirstContaining(clauses: seq<string>, answer: string): (i: int)
    ensures -1 <= i < |clauses|
    ensures i == -1 <==> forall k :: 0 <= k < |clauses| ==> !Contains(clauses[k], answer)
    ensures i >= 0 ==> Contains(clauses[i], answer) && forall k :: 0 <= k < i ==> !Contains(clauses[k], answer)
  {
    if clauses == [] then -1
    else if Contains(clauses[0], answer) then 0
    else
      var j := FirstContaining(clauses[1..], answer);
      if j == -1 then -1 else j + 1
  }

  /** The index of the first sentence whose last token ends at or after
      `endChar`, or -1. */
  function FirstCovering(sentences: seq<Sentence>, endChar: int): (i: int)
    ensures -1 <= i < |sentences|
    ensures i == -1 <==> forall k :: 0 <= k < |sentences| ==> endChar > sentences[k].lastEndChar
    ensures i >= 0 ==> endChar <= sentences[i].lastEndChar
                       && forall k :: 0 <= k < i ==> endChar > sentences[k].lastEndChar
  {
    if sentences == [] then -1
    else if endChar <= sentences[0].lastEndChar then 0
    else
      var j := FirstCovering(sentences[1..], endChar);
      if j == -1 then -1 else j + 1
  }

  /** The loop over the clauses that stops at the first containing `text`. */
  method ClauseWith(clauses: seq<string>, text: string) returns (i: int)
    ensures i == FirstContaining(clauses, text)
  {
    i := 0;
    while i < |clauses|
      invariant 0 <= i <= |clauses|
      invariant forall k :: 0 <= k < i ==> !Contains(clauses[k], text)
    {
      if Find(clauses[i], text) != -1 {
        return;
      }
      i := i + 1;
    }
    i := -1;
  }

  /** The loop over the sentences that stops at the first one ending at or
      after `endChar`. */
  method CoveringSentence(sentences: seq<Sentence>, endChar: int) returns (j: int)
    ensures j == FirstCovering(sentences, endChar)
  {
    j := 0;
    while j < |sentences|
      invariant 0 <= j <= |sentences|
      invariant forall k :: 0 <= k < j ==> endChar > sentences[k].lastEndChar
    {
      if endChar <= sentences[j].lastEndChar {
        return;
      }
      j := j + 1;
    }
    j := -1;
  }

  /** A part-of-speech answer's question: the first (so shortest) clause that
      contains it, with its first occurrence replaced by the placeholder.
      `None` stands for "no usable question". */
  function SpanQuestionOf(answer: string, clauses: seq<string>): (q: Option<string>)
    ensures q.None? <==> answer == [] || FirstContaining(clauses, answer) == -1
    ensures q.Some? ==> Contains(q.value, Placeholder)
  {
    if answer == [] then None
    else
      var i := FirstContaining(clauses, answer);
      if i == -1 then None
      else
        ReplaceFirstContainsReplacement(clauses[i], answer, Placeholder);
        Some(ReplaceFirst(clauses[i], answer, Placeholder))
  }

  /** The loop form of `SpanQuestionOf`. */
  method SpanQuestion(answer: string, clauses: seq<string>) returns (question: Option<string>)
    ensures question.None? <==> answer == [] || FirstContaining(clauses, answer) == -1
    ensures question.Some? ==>
      question.value == ReplaceFirst(clauses[FirstContaining(clauses, answer)], answer, Placeholder)
    ensures question.Some? ==> Contains(question.value, Placeholder)
    ensures question == SpanQuestionOf(answer, clauses)
  {
    question := None;
    if |answer| != 0 {
      var i := ClauseWith(clauses, answer);
      if i != -1 {
        ReplaceFirstContainsReplacement(clauses[i], answer, Placeholder);
        question := Some(ReplaceFirst(clauses[i], answer, Placeholder));
      }
    }
  }

  /** The text a named entity's fallback question is made from: the words of
      the covering sentence, with the entity's first occurrence replaced by
      its type. */
  function EntityFallback(sent: Sentence, ent: Entity): string {
    ReplaceFirst(TreeToText(sent.tree, " "), ent.text, ent.kind)
  }

  /** A named entity's question: the first clause that contains the entity,
      left unmasked (the entity is replaced by itself); failing that, the
      words of the first sentence ending at or after the entity, with the
      entity replaced by its type. `None` stands for "no usable question"
      (none found, or an empty one). */
  function EntityQuestionOf(ent: Entity, clauses: seq<string>, sentences: seq<Sentence>): (q: Option<string>)
    ensures q.Some? ==> q.value != []
    ensures ent.text != [] && FirstContaining(clauses, ent.text) >= 0 ==>
      q == Some(clauses[FirstContaining(clauses, ent.text)])
    ensures FirstContaining(clauses, ent.text) == -1 && FirstCovering(sentences, ent.endChar) == -1 ==> q.None?
  {
    var i := FirstContaining(clauses, ent.text);
    if i >= 0 && clauses[i] != [] then Some(clauses[i])
    else
      var s := FirstCovering(sentences, ent.endChar);
      if s >= 0 && EntityFallback(sentences[s], ent) != [] then Some(EntityFallback(sentences[s], ent)) else None
  }

  /** The loop form of `EntityQuestionOf`. */
  method EntityQuestion(ent: Entity, clauses: seq<string>, sentences: seq<Sentence>)
    returns (question: Option<string>)
    ensures FirstContaining(clauses, ent.text) >= 0 && clauses[FirstContaining(clauses, ent.text)] != [] ==>
      question == Some(clauses[FirstContaining(clauses, ent.text)])
    ensures !(FirstContaining(clauses, ent.text) >= 0 && clauses[FirstContaining(clauses, ent.text)] != []) ==>
      var s := FirstCovering(sentences, ent.endChar);
      question == if s >= 0 && EntityFallback(sentences[s], ent) != [] then Some(EntityFallback(sentences[s], ent)) else None
    ensures question == EntityQuestionOf(ent, clauses, sentences)
  {
    var found: string := [];
    var i := ClauseWith(clauses, ent.text);
    if i != -1 {
      found := ReplaceFirst(clauses[i], ent.text, ent.text);
      ReplaceFirstSelf(clauses[i], ent.text);
    }
    if found == [] {
      var j := CoveringSentence(sentences, ent.endChar);
      if j != -1 {
        found := EntityFallback(sentences[j], ent);
      }
    }
    question := if found == [] then None else Some(found);
  }

  // ---------------------------------------------------------------------
  // Summary rendering: `get_summary`
  // ---------------------------------------------------------------------

  /** The words of each sentence joined by spaces. */
  function SentenceTexts(sentences: seq<Sentence>): (r: seq<string>)
    ensures |r| == |sentences|
  {
    if sentences == [] then []
    else SentenceTexts(sentences[..|sentences| - 1]) + [TreeToText(sentences[|sentences| - 1].tree, " ")]
  }

  /** Each sentence's text followed by a space, concatenated. */
  function SummaryText(sentences: seq<Sentence>): string {
    if sentences == [] then ""
    else SummaryText(sentences[..|sentences| - 1]) + (TreeToText(sentences[|sentences| - 1].tree, " ") + " ")
  }

  /** The summary re-rendered from its parse, and the parse. */
  method GetSummary(summary: string, parse: string -> NlpDoc) returns (rendered: string, doc: NlpDoc)
    ensures doc == parse(summary)
    ensures rendered == Strip(SummaryText(doc.sentences))
  {
    doc := parse(summary);
    var text := "";
    for i := 0 to |doc.sentences|
      invariant text == SummaryText(doc.sentences[..i])
    {
      text := text + (TreeToText(doc.sentences[i].tree, " ") + " ");
      assert doc.sentences[..i + 1][..i] == doc.sentences[..i];
    }
    assert doc.sentences[..|doc.sentences|] == doc.sentences;
    rendered := Strip(text);
  }

  lemma {:induction false} SummaryTextJoined(sentences: seq<Sentence>)
    requires sentences != []
    ensures SummaryText(sentences) == Join(" ", SentenceTexts(sentences)) + " "
  {
    var front := sentences[..|sentences| - 1];
    var t := TreeToText(sentences[|sentences| - 1].tree, " ");
    if front != [] {
      SummaryTextJoined(front);
      JoinAppend(" ", SentenceTexts(front), t);
    } else {
      assert SentenceTexts(sentences) == [t];
    }
  }

  /** The rendered summary is the sentence texts joined by single spaces,
      stripped: the trailing space the loop adds is dropped. */
  lemma SummaryIsJoinedSentences(sentences: seq<Sentence>)
    ensures Strip(SummaryText(sentences)) == Strip(Join(" ", SentenceTexts(sentences)))
  {
    if sentences != [] {
      SummaryTextJoined(sentences);
      StripAppendSpace(Join(" ", SentenceTexts(sentences)), ' ');
    }
  }

  // ---------------------------------------------------------------------
  // Building the cloze records: `extract_answer_pos`, `extract_answer_ne`
  // ---------------------------------------------------------------------

  /** One input record: the page's url and title, its summary paragraphs and
      the segments of its document. */
  datatype Item = Item(url: string, title: string, summary: seq<string>, document: seq<string>)

  /** The answer of a pair: its text, its type, its offset in the context and
      the index of the summary paragraph it came from. */
  datatype Answer = Answer(text: string, kind: string, start: int, summaryIndex: nat)

  datatype QA = QA(id: string, isImpossible: bool, question: string, answer: Answer)

  /** One output record per input record. */
  datatype Cloze = Cloze(title: string, summary: seq<string>, context: string, qas: seq<QA>)

  /** Which answers are extracted: phrases of one tag, or named entities. */
  datatype Mode = Span(tag: string) | Entities

  /** `f'{url}_{count}'`. */
  function QAId(url: string, n: nat): string {
    url + "_" + NatToString(n)
  }

  /** Where a pair's answer comes from: a phrase of the tag in that summary
      paragraph, masked in the question; or a named entity of that summary
      paragraph, with the entity's own type. */
  predicate FromSummary(qa: QA, item: Item, mode: Mode, parse: string -> NlpDoc)
    requires qa.answer.summaryIndex < |item.summary|
  {
    var doc := parse(item.summary[qa.answer.summaryIndex]);
    match mode
    case Span(tag) =>
      qa.answer.kind == tag && qa.answer.text in PosAnswers(doc.sentences, tag)
      && Contains(qa.question, Placeholder)
    case Entities =>
      exists e :: e in doc.ents && e.text == qa.answer.text && e.kind == qa.answer.kind
  }

  /** What every emitted pair satisfies: its id carries its running number,
      it is answerable, its answer is non-empty and sits at `start` in the
      joined document, and it comes from a summary paragraph of the item. */
  predicate PairOk(qa: QA, item: Item, mode: Mode, parse: string -> NlpDoc, n: nat) {
    qa.id == QAId(item.url, n) && !qa.isImpossible && qa.answer.text != [] && qa.question != []
    && OccursAt(Join(" ", item.document), qa.answer.text, qa.answer.start)
    && qa.answer.summaryIndex < |item.summary| && FromSummary(qa, item, mode, parse)
  }

  lemma SpanPairIsOk(item: Item, idx: nat, tag: string, parse: string -> NlpDoc, n: nat,
                     answer: string, question: string, start: int)
    requires idx < |item.summary|
    requires answer != [] && answer in PosAnswers(parse(item.summary[idx]).sentences, tag)
    requires Contains(question, Placeholder)
    requires OccursAt(Join(" ", item.document), answer, start)
    ensures PairOk(QA(QAId(item.url, n), false, question, Answer(answer, tag, start, idx)), item, Span(tag), parse, n)
  {
    var w :| 0 <= w <= |question| - |Placeholder| && OccursAt(question, Placeholder, w);
  }

  /** The pairs built so far from summary paragraph `idx` are numbered from
      `count0` and satisfy `PairOk`. */
  predicate PairsOk(qas: seq<QA>, item: Item, idx: nat, mode: Mode, parse: string -> NlpDoc, count0: nat) {
    forall j :: 0 <= j < |qas| ==>
      qas[j].answer.summaryIndex == idx && PairOk(qas[j], item, mode, parse, count0 + j)
  }

  lemma EntityPairIsOk(item: Item, idx: nat, ent: Entity, parse: string -> NlpDoc, n: nat,
                       question: string, start: int)
    requires idx < |item.summary| && ent in parse(item.summary[idx]).ents && ent.text != []
    requires question != []
    requires OccursAt(Join(" ", item.document), ent.text, start)
    ensures PairOk(QA(QAId(item.url, n), false, question, Answer(ent.text, ent.kind, start, idx)), item, Entities, parse, n)
  {
  }

  lemma PairsOkAppend(qas: seq<QA>, qa: QA, item: Item, idx: nat, mode: Mode, parse: string -> NlpDoc, count0: nat)
    requires PairsOk(qas, item, idx, mode, parse, count0)
    requires qa.answer.summaryIndex == idx && PairOk(qa, item, mode, parse, count0 + |qas|)
    ensures PairsOk(qas + [qa], item, idx, mode, parse, count0)
    ensures (qas + [qa])[..|qas|] == qas
  {
    var r := qas + [qa];
    forall j | 0 <= j < |r| ensures r[j].answer.summaryIndex == idx && PairOk(r[j], item, mode, parse, count0 + j) {
      if j < |qas| {
        assert r[j] == qas[j];
      }
    }
  }

  /** What one candidate contributes: nothing, or one pair. */
  function Listed(o: Option<QA>): seq<QA> {
    if o.Some? then [o.value] else []
  }

  /** The pair one candidate phrase gives, numbered `n`: none when the phrase
      is empty, when no clause holds it or when no segment of the document
      holds it; otherwise the phrase with its masked question and its offset
      in the joined document. */
  function SpanDraft(item: Item, idx: nat, tag: string, answer: string, clauses: seq<string>, n: nat,
                     annotate: string -> seq<Word>, isStop: Word -> bool): Option<QA>
  {
    if answer == [] then None
    else
      match SpanQuestionOf(answer, clauses)
      case None => None
      case Some(question) =>
        var start := AnswerStart(answer, question, item.document, annotate, isStop);
        if start == -1 then None
        else Some(QA(QAId(item.url, n), false, question, Answer(answer, tag, start, idx)))
  }

  /** A phrase gives no pair exactly when it is empty, when no clause holds
      it or when no segment of the document holds it; the pair it gives
      carries the number, the phrase and the tag, the masked question, and an
      offset at which the joined document holds the phrase. */
  lemma SpanDraftSpec(item: Item, idx: nat, tag: string, answer: string, clauses: seq<string>, n: nat,
                      annotate: string -> seq<Word>, isStop: Word -> bool)
    ensures var r := SpanDraft(item, idx, tag, answer, clauses, n, annotate, isStop);
      (r.None? <==> answer == [] || FirstContaining(clauses, answer) == -1
                    || forall k :: 0 <= k < |item.document| ==> !Contains(item.document[k], answer))
      && (r.Some? ==> r.value.id == QAId(item.url, n) && !r.value.isImpossible
                      && r.value.answer.text == answer && r.value.answer.kind == tag
                      && r.value.answer.summaryIndex == idx
                      && r.value.question == SpanQuestionOf(answer, clauses).value
                      && OccursAt(Join(" ", item.document), answer, r.value.answer.start))
  {
    match SpanQuestionOf(answer, clauses)
    case None =>
    case Some(question) => AnswerStartSpec(answer, question, item.document, annotate, isStop);
  }

  /** `SpanDraft` for one summary paragraph, as a function of the phrase and
      its number. */
  function SpanDrafts(item: Item, idx: nat, tag: string, clauses: seq<string>,
                      annotate: string -> seq<Word>, isStop: Word -> bool): (string, nat) -> Option<QA>
  {
    (answer: string, n: nat) => SpanDraft(item, idx, tag, answer, clauses, n, annotate, isStop)
  }

  /** The pair one named entity gives, numbered `n`: none when the entity is
      empty, when no question can be made for it or when no segment of the
      document holds it; otherwise the entity with its type, its question and
      its offset in the joined document. */
  function EntityDraft(item: Item, idx: nat, ent: Entity, sentences: seq<Sentence>, clauses: seq<string>, n: nat,
                       annotate: string -> seq<Word>, isStop: Word -> bool): Option<QA>
  {
    if ent.text == [] then None
    else
      match EntityQuestionOf(ent, clauses, sentences)
      case None => None
      case Some(question) =>
        var start := AnswerStart(ent.text, question, item.document, annotate, isStop);
        if start == -1 then None
        else Some(QA(QAId(item.url, n), false, question, Answer(ent.text, ent.kind, start, idx)))
  }

  /** An entity gives no pair exactly when it is empty, when no question can
      be made for it or when no segment of the document holds it; the pair it
      gives carries the number, the entity's text and type, the question, and
      an offset at which the joined document holds the entity. */
  lemma EntityDraftSpec(item: Item, idx: nat, ent: Entity, sentences: seq<Sentence>, clauses: seq<string>, n: nat,
                        annotate: string -> seq<Word>, isStop: Word -> bool)
    ensures var r := EntityDraft(item, idx, ent, sentences, clauses, n, annotate, isStop);
      (r.None? <==> ent.text == [] || EntityQuestionOf(ent, clauses, sentences).None?
                    || forall k :: 0 <= k < |item.document| ==> !Contains(item.document[k], ent.text))
      && (r.Some? ==> r.value.id == QAId(item.url, n) && !r.value.isImpossible
                      && r.value.answer.text == ent.text && r.value.answer.kind == ent.kind
                      && r.value.answer.summaryIndex == idx
                      && r.value.question == EntityQuestionOf(ent, clauses, sentences).value
                      && OccursAt(Join(" ", item.document), ent.text, r.value.answer.start))
  {
    match EntityQuestionOf(ent, clauses, sentences)
    case None =>
    case Some(question) => AnswerStartSpec(ent.text, question, item.document, annotate, isStop);
  }

  /** `EntityDraft` for one summary paragraph, as a function of the entity
      and its number. */
  function EntityDrafts(item: Item, idx: nat, sentences: seq<Sentence>, clauses: seq<string>,
                        annotate: string -> seq<Word>, isStop: Word -> bool): (Entity, nat) -> Option<QA>
  {
    (ent: Entity, n: nat) => EntityDraft(item, idx, ent, sentences, clauses, n, annotate, isStop)
  }

  /** The pairs the candidates give, in order, each numbered by the count of
      pairs before it, on from `count0`. */
  function Numbered<C>(cands: seq<C>, draft: (C, nat) -> Option<QA>, count0: nat): seq<QA> {
    if cands == [] then []
    else
      var qas := Numbered(cands[..|cands| - 1], draft, count0);
      qas + Listed(draft(cands[|cands| - 1], count0 + |qas|))
  }

  /** One more candidate extends the pairs by the pair it gives. */
  lemma NumberedSnoc<C>(cands: seq<C>, a: nat, draft: (C, nat) -> Option<QA>, count0: nat, qas: seq<QA>, qas': seq<QA>)
    requires a < |cands|
    requires qas == Numbered(cands[..a], draft, count0)
    requires qas' == qas + Listed(draft(cands[a], count0 + |qas|))
    ensures qas' == Numbered(cands[..a + 1], draft, count0)
  {
    assert cands[..a + 1][..a] == cands[..a];
  }

  /** When every pair a candidate can give is valid under its number, the
      pairs are valid and numbered on from `count0`. */
  lemma {:induction false} NumberedOk<C>(cands: seq<C>, draft: (C, nat) -> Option<QA>, count0: nat,
                                         item: Item, idx: nat, mode: Mode, parse: string -> NlpDoc)
    requires forall c, n: nat :: c in cands && draft(c, n).Some? ==>
      draft(c, n).value.answer.summaryIndex == idx && PairOk(draft(c, n).value, item, mode, parse, n)
    ensures PairsOk(Numbered(cands, draft, count0), item, idx, mode, parse, count0)
  {
    if cands != [] {
      var front := cands[..|cands| - 1];
      assert forall c :: c in front ==> c in cands;
      NumberedOk(front, draft, count0, item, idx, mode, parse);
      var qas := Numbered(front, draft, count0);
      var last := draft(cands[|cands| - 1], count0 + |qas|);
      if last.Some? {
        PairsOkAppend(qas, last.value, item, idx, mode, parse, count0);
      }
    }
  }

  /** The pairs of summary paragraph `idx`, numbered on from `count0`: the
      paragraph is skipped when it has no candidate phrase (span mode) or no
      clause. */
  function SummaryQAs(item: Item, idx: nat, mode: Mode, count0: nat, parse: string -> NlpDoc,
                      annotate: string -> seq<Word>, isStop: Word -> bool): seq<QA>
    requires idx < |item.summary|
  {
    var doc := parse(item.summary[idx]);
    var clauses := SortedClauses(doc.sentences);
    match mode
    case Span(tag) =>
      if PosAnswers(doc.sentences, tag) == [] || clauses == [] then []
      else Numbered(PosAnswers(doc.sentences, tag), SpanDrafts(item, idx, tag, clauses, annotate, isStop), count0)
    case Entities =>
      if clauses == [] then []
      else Numbered(doc.ents, EntityDrafts(item, idx, doc.sentences, clauses, annotate, isStop), count0)
  }

  /** The pairs of the first `n` summary paragraphs, each paragraph's pairs
      numbered on from the pairs of the paragraphs before it. */
  function Chained(n: nat, step: (nat, nat) -> seq<QA>, count0: nat): seq<QA> {
    if n == 0 then []
    else
      var qas := Chained(n - 1, step, count0);
      qas + step(n - 1, count0 + |qas|)
  }

  /** One more paragraph extends the chain by that paragraph's pairs. */
  lemma ChainedSnoc(n: nat, step: (nat, nat) -> seq<QA>, count0: nat, qas: seq<QA>, count: nat, more: seq<QA>)
    requires qas == Chained(n, step, count0) && count == count0 + |qas| && more == step(n, count)
    ensures qas + more == Chained(n + 1, step, count0)
  {
  }

  /** One more summary paragraph extends the item's pairs by the pairs of
      that paragraph, numbered on from the pairs before it. */
  lemma ItemQAsSnoc(item: Item, mode: Mode, count0: nat, parse: string -> NlpDoc,
                    annotate: string -> seq<Word>, isStop: Word -> bool, idx: nat,
                    qas: seq<QA>, count: nat, more: seq<QA>)
    requires idx < |item.summary|
    requires qas == ItemQAs(item, mode, count0, parse, annotate, isStop, idx) && count == count0 + |qas|
    requires more == SummaryQAs(item, idx, mode, count, parse, annotate, isStop)
    ensures qas + more == ItemQAs(item, mode, count0, parse, annotate, isStop, idx + 1)
  {
    SummaryStepsApply(item, mode, parse, annotate, isStop, idx, count);
    ChainedSnoc(idx, SummarySteps(item, mode, parse, annotate, isStop), count0, qas, count, more);
  }

  /** The pairs of summary paragraph `idx` when numbering starts at `count`. */
  function SummarySteps(item: Item, mode: Mode, parse: string -> NlpDoc,
                        annotate: string -> seq<Word>, isStop: Word -> bool): (nat, nat) -> seq<QA> {
    (idx: nat, count: nat) =>
      if idx < |item.summary| then SummaryQAs(item, idx, mode, count, parse, annotate, isStop) else []
  }

  lemma SummaryStepsApply(item: Item, mode: Mode, parse: string -> NlpDoc,
                          annotate: string -> seq<Word>, isStop: Word -> bool, idx: nat, count: nat)
    requires idx < |item.summary|
    ensures SummarySteps(item, mode, parse, annotate, isStop)(idx, count)
            == SummaryQAs(item, idx, mode, count, parse, annotate, isStop)
  {
  }

  /** The pairs of the first `n` summary paragraphs, numbered on from
      `count0`. */
  function ItemQAs(item: Item, mode: Mode, count0: nat, parse: string -> NlpDoc,
                   annotate: string -> seq<Word>, isStop: Word -> bool, n: nat): seq<QA>
    requires n <= |item.summary|
  {
    Chained(n, SummarySteps(item, mode, parse, annotate, isStop), count0)
  }

  /** Every summary paragraph of an item, re-rendered from its parse. */
  function RenderedSummaries(item: Item, parse: string -> NlpDoc): (r: seq<string>)
    ensures SummariesRendered(r, item, parse, |item.summary|)
  {
    seq(|item.summary|, k requires 0 <= k < |item.summary| => Strip(SummaryText(parse(item.summary[k]).sentences)))
  }

  /** The record of one item whose pairs are numbered on from `count0`. */
  function ItemRecord(item: Item, mode: Mode, count0: nat, parse: string -> NlpDoc,
                      annotate: string -> seq<Word>, isStop: Word -> bool): Cloze
  {
    Cloze(item.title, RenderedSummaries(item, parse), Join(" ", item.document),
          ItemQAs(item, mode, count0, parse, annotate, isStop, |item.summary|))
  }

  /** The records of the items, each numbering its pairs on from the pairs of
      the records before it. */
  function Records(items: seq<Item>, mode: Mode, parse: string -> NlpDoc,
                   annotate: string -> seq<Word>, isStop: Word -> bool): seq<Cloze>
  {
    if items == [] then []
    else
      var prev := Records(items[..|items| - 1], mode, parse, annotate, isStop);
      prev + [ItemRecord(items[|items| - 1], mode, TotalQAs(prev), parse, annotate, isStop)]
  }

  /** The pairs the tag's phrases give are valid and numbered on from
      `count0`. */
  lemma SpanDraftsOk(item: Item, idx: nat, tag: string, answers: seq<string>, clauses: seq<string>, count0: nat,
                     parse: string -> NlpDoc, annotate: string -> seq<Word>, isStop: Word -> bool)
    requires idx < |item.summary|
    requires forall a :: a in answers ==> a in PosAnswers(parse(item.summary[idx]).sentences, tag)
    ensures PairsOk(Numbered(answers, SpanDrafts(item, idx, tag, clauses, annotate, isStop), count0),
                    item, idx, Span(tag), parse, count0)
  {
    var drafts := SpanDrafts(item, idx, tag, clauses, annotate, isStop);
    forall a, n: nat | a in answers && drafts(a, n).Some?
      ensures drafts(a, n).value.answer.summaryIndex == idx && PairOk(drafts(a, n).value, item, Span(tag), parse, n)
    {
      var r := SpanDraft(item, idx, tag, a, clauses, n, annotate, isStop);
      SpanDraftSpec(item, idx, tag, a, clauses, n, annotate, isStop);
      SpanPairIsOk(item, idx, tag, parse, n, a, r.value.question, r.value.answer.start);
      assert r.value == QA(QAId(item.url, n), false, r.value.question, Answer(a, tag, r.value.answer.start, idx));
    }
    NumberedOk(answers, drafts, count0, item, idx, Span(tag), parse);
  }

  /** The pairs a summary paragraph's entities give are valid and numbered on
      from `count0`. */
  lemma EntityDraftsOk(item: Item, idx: nat, ents: seq<Entity>, sentences: seq<Sentence>, clauses: seq<string>,
                       count0: nat, parse: string -> NlpDoc, annotate: string -> seq<Word>, isStop: Word -> bool)
    requires idx < |item.summary|
    requires forall e :: e in ents ==> e in parse(item.summary[idx]).ents
    ensures PairsOk(Numbered(ents, EntityDrafts(item, idx, sentences, clauses, annotate, isStop), count0),
                    item, idx, Entities, parse, count0)
  {
    var drafts := EntityDrafts(item, idx, sentences, clauses, annotate, isStop);
    forall e, n: nat | e in ents && drafts(e, n).Some?
      ensures drafts(e, n).value.answer.summaryIndex == idx && PairOk(drafts(e, n).value, item, Entities, parse, n)
    {
      var r := EntityDraft(item, idx, e, sentences, clauses, n, annotate, isStop);
      EntityDraftSpec(item, idx, e, sentences, clauses, n, annotate, isStop);
      EntityPairIsOk(item, idx, e, parse, n, r.value.question, r.value.answer.start);
      assert r.value == QA(QAId(item.url, n), false, r.value.question, Answer(e.text, e.kind, r.value.answer.start, idx));
    }
    NumberedOk(ents, drafts, count0, item, idx, Entities, parse);
  }

  /** One candidate phrase: a pair is added when a clause holds it and the
      document holds it. */
  method SpanStep(item: Item, idx: nat, tag: string, answer: string, clauses: seq<string>,
                  qas: seq<QA>, count0: nat, parse: string -> NlpDoc,
                  annotate: string -> seq<Word>, isStop: Word -> bool)
    returns (qas': seq<QA>)
    requires idx < |item.summary| && answer in PosAnswers(parse(item.summary[idx]).sentences, tag)
    requires PairsOk(qas, item, idx, Span(tag), parse, count0)
    ensures PairsOk(qas', item, idx, Span(tag), parse, count0)
    ensures qas' == qas || (|qas'| == |qas| + 1 && qas'[..|qas|] == qas)
    ensures qas' == qas + Listed(SpanDraft(item, idx, tag, answer, clauses, count0 + |qas|, annotate, isStop))
  {
    qas' := qas;
    if |answer| == 0 {
      return;
    }
    var question := SpanQuestion(answer, clauses);
    if question.None? {
      return;
    }
    var start := GetAnswerStart(answer, question.value, item.document, annotate, isStop);
    if start == -1 {
      return;
    }
    var qa := QA(QAId(item.url, count0 + |qas|), false, question.value, Answer(answer, tag, start, idx));
    SpanPairIsOk(item, idx, tag, parse, count0 + |qas|, answer, question.value, start);
    PairsOkAppend(qas, qa, item, idx, Span(tag), parse, count0);
    qas' := qas + [qa];
  }

  /** The pairs of one summary paragraph in span mode, numbered from
      `count0`. */
  method SpanPairs(item: Item, idx: nat, tag: string, doc: NlpDoc, count0: nat,
                   parse: string -> NlpDoc, annotate: string -> seq<Word>, isStop: Word -> bool)
    returns (qas: seq<QA>)
    requires idx < |item.summary| && doc == parse(item.summary[idx])
    ensures PairsOk(qas, item, idx, Span(tag), parse, count0)
    ensures qas == SummaryQAs(item, idx, Span(tag), count0, parse, annotate, isStop)
  {
    qas := [];
    var spans := ExtractPosAnswers(doc, tag);
    if |spans| == 0 {
      return;
    }
    var clauses := ExtractClauses(doc);
    if |clauses| == 0 {
      return;
    }
    ghost var drafts := SpanDrafts(item, idx, tag, clauses, annotate, isStop);
    for a := 0 to |spans|
      invariant qas == Numbered(spans[..a], drafts, count0)
      invariant PairsOk(qas, item, idx, Span(tag), parse, count0)
    {
      var next := SpanStep(item, idx, tag, spans[a], clauses, qas, count0, parse, annotate, isStop);
      assert drafts(spans[a], count0 + |qas|) == SpanDraft(item, idx, tag, spans[a], clauses, count0 + |qas|, annotate, isStop);
      NumberedSnoc(spans, a, drafts, count0, qas, next);
      qas := next;
    }
    assert spans[..|spans|] == spans;
  }

  /** One named entity: a pair is added when a question can be made for it and
      the document holds it. */
  method EntityStep(item: Item, idx: nat, ent: Entity, doc: NlpDoc, clauses: seq<string>,
                    qas: seq<QA>, count0: nat, parse: string -> NlpDoc,
                    annotate: string -> seq<Word>, isStop: Word -> bool)
    returns (qas': seq<QA>)
    requires idx < |item.summary| && doc == parse(item.summary[idx]) && ent in doc.ents
    requires PairsOk(qas, item, idx, Entities, parse, count0)
    ensures PairsOk(qas', item, idx, Entities, parse, count0)
    ensures qas' == qas || (|qas'| == |qas| + 1 && qas'[..|qas|] == qas)
    ensures qas' == qas + Listed(EntityDraft(item, idx, ent, doc.sentences, clauses, count0 + |qas|, annotate, isStop))
  {
    qas' := qas;
    if |ent.text| == 0 {
      return;
    }
    var question := EntityQuestion(ent, clauses, doc.sentences);
    if question.None? {
      return;
    }
    var start := GetAnswerStart(ent.text, question.value, item.document, annotate, isStop);
    if start == -1 {
      return;
    }
    var qa := QA(QAId(item.url, count0 + |qas|), false, question.value, Answer(ent.text, ent.kind, start, idx));
    EntityPairIsOk(item, idx, ent, parse, count0 + |qas|, question.value, start);
    PairsOkAppend(qas, qa, item, idx, Entities, parse, count0);
    qas' := qas + [qa];
  }

  /** The pairs of one summary paragraph in entity mode, numbered from
      `count0`. */
  method EntityPairs(item: Item, idx: nat, doc: NlpDoc, count0: nat,
                     parse: string -> NlpDoc, annotate: string -> seq<Word>, isStop: Word -> bool)
    returns (qas: seq<QA>)
    requires idx < |item.summary| && doc == parse(item.summary[idx])
    ensures PairsOk(qas, item, idx, Entities, parse, count0)
    ensures qas == SummaryQAs(item, idx, Entities, count0, parse, annotate, isStop)
  {
    qas := [];
    var clauses := ExtractClauses(doc);
    if |clauses| == 0 {
      return;
    }
    ghost var drafts := EntityDrafts(item, idx, doc.sentences, clauses, annotate, isStop);
    for a := 0 to |doc.ents|
      invariant qas == Numbered(doc.ents[..a], drafts, count0)
      invariant PairsOk(qas, item, idx, Entities, parse, count0)
    {
      var next := EntityStep(item, idx, doc.ents[a], doc, clauses, qas, count0, parse, annotate, isStop);
      assert drafts(doc.ents[a], count0 + |qas|)
          == EntityDraft(item, idx, doc.ents[a], doc.sentences, clauses, count0 + |qas|, annotate, isStop);
      NumberedSnoc(doc.ents, a, drafts, count0, qas, next);
      qas := next;
    }
    assert doc.ents[..|doc.ents|] == doc.ents;
  }

  /** The pairs built from summary paragraph `idx`, numbered from `count0`. */
  method SummaryPairs(item: Item, idx: nat, mode: Mode, count0: nat, parse: string -> NlpDoc,
                      annotate: string -> seq<Word>, isStop: Word -> bool)
    returns (rendered: string, qas: seq<QA>)
    requires idx < |item.summary|
    ensures rendered == Strip(SummaryText(parse(item.summary[idx]).sentences))
    ensures PairsOk(qas, item, idx, mode, parse, count0)
    ensures qas == SummaryQAs(item, idx, mode, count0, parse, annotate, isStop)
  {
    var doc;
    rendered, doc := GetSummary(item.summary[idx], parse);
    match mode {
      case Span(tag) =>
        qas := SpanPairs(item, idx, tag, doc, count0, parse, annotate, isStop);
      case Entities =>
        qas := EntityPairs(item, idx, doc, count0, parse, annotate, isStop);
    }
  }

  /** The pairs of one item, numbered from `count0`. */
  predicate ItemPairsOk(qas: seq<QA>, item: Item, mode: Mode, parse: string -> NlpDoc, count0: nat) {
    forall j :: 0 <= j < |qas| ==> PairOk(qas[j], item, mode, parse, count0 + j)
  }

  lemma ItemPairsOkAppend(qas: seq<QA>, more: seq<QA>, item: Item, idx: nat, mode: Mode,
                          parse: string -> NlpDoc, count0: nat)
    requires ItemPairsOk(qas, item, mode, parse, count0)
    requires PairsOk(more, item, idx, mode, parse, count0 + |qas|)
    ensures ItemPairsOk(qas + more, item, mode, parse, count0)
  {
    var r := qas + more;
    forall j | 0 <= j < |r| ensures PairOk(r[j], item, mode, parse, count0 + j) {
      if j < |qas| {
        assert r[j] == qas[j];
      } else {
        assert r[j] == more[j - |qas|];
      }
    }
  }

  /** The pairs of a summary paragraph are valid and numbered on from
      `count0`. */
  lemma SummaryQAsOk(item: Item, idx: nat, mode: Mode, count0: nat, parse: string -> NlpDoc,
                     annotate: string -> seq<Word>, isStop: Word -> bool)
    requires idx < |item.summary|
    ensures PairsOk(SummaryQAs(item, idx, mode, count0, parse, annotate, isStop), item, idx, mode, parse, count0)
  {
    var doc := parse(item.summary[idx]);
    var clauses := SortedClauses(doc.sentences);
    match mode
    case Span(tag) =>
      SpanDraftsOk(item, idx, tag, PosAnswers(doc.sentences, tag), clauses, count0, parse, annotate, isStop);
    case Entities =>
      EntityDraftsOk(item, idx, doc.ents, doc.sentences, clauses, count0, parse, annotate, isStop);
  }

  /** A chain of paragraphs whose every step is valid is valid. */
  lemma {:induction false} ChainedOk(n: nat, step: (nat, nat) -> seq<QA>, count0: nat,
                                     item: Item, mode: Mode, parse: string -> NlpDoc)
    requires forall idx: nat, count: nat :: idx < n ==> PairsOk(step(idx, count), item, idx, mode, parse, count)
    ensures ItemPairsOk(Chained(n, step, count0), item, mode, parse, count0)
  {
    if n > 0 {
      var qas := Chained(n - 1, step, count0);
      ChainedOk(n - 1, step, count0, item, mode, parse);
      ItemPairsOkAppend(qas, step(n - 1, count0 + |qas|), item, n - 1, mode, parse, count0);
    }
  }

  /** The pairs of the first `n` summary paragraphs are valid and numbered on
      from `count0`. */
  lemma ItemQAsOk(item: Item, mode: Mode, count0: nat, parse: string -> NlpDoc,
                  annotate: string -> seq<Word>, isStop: Word -> bool, n: nat)
    requires n <= |item.summary|
    ensures ItemPairsOk(ItemQAs(item, mode, count0, parse, annotate, isStop, n), item, mode, parse, count0)
  {
    var steps := SummarySteps(item, mode, parse, annotate, isStop);
    forall idx: nat, count: nat | idx < n
      ensures PairsOk(steps(idx, count), item, idx, mode, parse, count)
    {
      SummaryQAsOk(item, idx, mode, count, parse, annotate, isStop);
      assert steps(idx, count) == SummaryQAs(item, idx, mode, count, parse, annotate, isStop);
    }
    ChainedOk(n, steps, count0, item, mode, parse);
  }

  /** The rendered summaries of an item. */
  predicate SummariesRendered(rendered: seq<string>, item: Item, parse: string -> NlpDoc, n: nat)
    requires n <= |item.summary|
  {
    |rendered| == n
    && forall k :: 0 <= k < n ==> rendered[k] == Strip(SummaryText(parse(item.summary[k]).sentences))
  }

  lemma SummariesRenderedSnoc(rendered: seq<string>, next: string, item: Item, parse: string -> NlpDoc, n: nat)
    requires n < |item.summary| && SummariesRendered(rendered, item, parse, n)
    requires next == Strip(SummaryText(parse(item.summary[n]).sentences))
    ensures SummariesRendered(rendered + [next], item, parse, n + 1)
  {
  }

  /** One item's record: every summary paragraph re-rendered, the document
      joined by spaces, and its pairs numbered from `count0`. */
  method ItemCloze(item: Item, mode: Mode, count0: nat, parse: string -> NlpDoc,
                   annotate: string -> seq<Word>, isStop: Word -> bool)
    returns (cloze: Cloze, count: nat)
    ensures cloze.title == item.title && cloze.context == Join(" ", item.document)
    ensures SummariesRendered(cloze.summary, item, parse, |item.summary|)
    ensures count == count0 + |cloze.qas|
    ensures ItemPairsOk(cloze.qas, item, mode, parse, count0)
    ensures cloze == ItemRecord(item, mode, count0, parse, annotate, isStop)
  {
    var summaries: seq<string> := [];
    var qas: seq<QA> := [];
    count := count0;
    for idx := 0 to |item.summary|
      invariant SummariesRendered(summaries, item, parse, idx)
      invariant count == count0 + |qas|
      invariant qas == ItemQAs(item, mode, count0, parse, annotate, isStop, idx)
    {
      var rendered, more := SummaryPairs(item, idx, mode, count, parse, annotate, isStop);
      ItemQAsSnoc(item, mode, count0, parse, annotate, isStop, idx, qas, count, more);
      SummariesRenderedSnoc(summaries, rendered, item, parse, idx);
      summaries := summaries + [rendered];
      qas := qas + more;
      count := count + |more|;
    }
    assert summaries == RenderedSummaries(item, parse);
    ItemQAsOk(item, mode, count0, parse, annotate, isStop, |item.summary|);
    cloze := Cloze(item.title, summaries, Join(" ", item.document), qas);
  }

  /** The number of pairs in the records. */
  function TotalQAs(cloze: seq<Cloze>): nat {
    if cloze == [] then 0 else TotalQAs(cloze[..|cloze| - 1]) + |cloze[|cloze| - 1].qas|
  }

  /** Record `i` is built from item `i`, and its pairs are numbered on from
      the pairs of the records before it. */
  predicate RecordOk(cloze: seq<Cloze>, items: seq<Item>, i: nat, mode: Mode, parse: string -> NlpDoc)
    requires i < |cloze| && i < |items|
  {
    cloze[i].title == items[i].title && cloze[i].context == Join(" ", items[i].document)
    && SummariesRendered(cloze[i].summary, items[i], parse, |items[i].summary|)
    && ItemPairsOk(cloze[i].qas, items[i], mode, parse, TotalQAs(cloze[..i]))
  }

  /** `extract_answer_pos` (span mode) and `extract_answer_ne` (entity mode):
      one record per item, every pair numbered by a counter that runs across
      all items, and the final count of pairs. */
  method ExtractAnswers(items: seq<Item>, mode: Mode, parse: string -> NlpDoc,
                        annotate: string -> seq<Word>, isStop: Word -> bool)
    returns (cloze: seq<Cloze>, count: nat)
    ensures |cloze| == |items|
    ensures count == TotalQAs(cloze)
    ensures forall i :: 0 <= i < |items| ==> RecordOk(cloze, items, i, mode, parse)
    ensures cloze == Records(items, mode, parse, annotate, isStop)
  {
    cloze := [];
    count := 0;
    for i := 0 to |items|
      invariant |cloze| == i
      invariant count == TotalQAs(cloze)
      invariant cloze == Records(items[..i], mode, parse, annotate, isStop)
    {
      var record, next := ItemCloze(items[i], mode, count, parse, annotate, isStop);
      RecordsSnoc(items, i, mode, parse, annotate, isStop, cloze, count, record);
      cloze := cloze + [record];
      count := next;
    }
    assert items[..|items|] == items;
    RecordsOk(items, mode, parse, annotate, isStop);
  }

  /** One more item extends the records by that item's record, numbered on
      from the pairs of the records before it. */
  lemma RecordsSnoc(items: seq<Item>, i: nat, mode: Mode, parse: string -> NlpDoc,
                    annotate: string -> seq<Word>, isStop: Word -> bool,
                    cloze: seq<Cloze>, count: nat, record: Cloze)
    requires i < |items|
    requires cloze == Records(items[..i], mode, parse, annotate, isStop) && count == TotalQAs(cloze)
    requires record == ItemRecord(items[i], mode, count, parse, annotate, isStop)
    ensures cloze + [record] == Records(items[..i + 1], mode, parse, annotate, isStop)
    ensures TotalQAs(cloze + [record]) == count + |record.qas|
  {
    assert (cloze + [record])[..|cloze|] == cloze;
    assert items[..i + 1][..i] == items[..i];
  }

  lemma RecordsAppend(cloze: seq<Cloze>, record: Cloze, items: seq<Item>, mode: Mode, parse: string -> NlpDoc)
    requires |cloze| < |items|
    requires forall k :: 0 <= k < |cloze| ==> RecordOk(cloze, items, k, mode, parse)
    requires record.title == items[|cloze|].title && record.context == Join(" ", items[|cloze|].document)
    requires SummariesRendered(record.summary, items[|cloze|], parse, |items[|cloze|].summary|)
    requires ItemPairsOk(record.qas, items[|cloze|], mode, parse, TotalQAs(cloze))
    ensures TotalQAs(cloze + [record]) == TotalQAs(cloze) + |record.qas|
    ensures forall k :: 0 <= k <= |cloze| ==> RecordOk(cloze + [record], items, k, mode, parse)
  {
    var r := cloze + [record];
    assert r[..|cloze|] == cloze;
    forall k | 0 <= k <= |cloze| ensures RecordOk(r, items, k, mode, parse) {
      if k < |cloze| {
        assert r[..k] == cloze[..k];
        assert r[k] == cloze[k];
        assert RecordOk(cloze, items, k, mode, parse);
      } else {
        assert r[..k] == cloze;
        assert r[k] == record;
      }
    }
  }

  /** The records are one per item, each built from its item with its pairs
      numbered on from the pairs before it. */
  lemma {:induction false} RecordsOk(items: seq<Item>, mode: Mode, parse: string -> NlpDoc,
                                     annotate: string -> seq<Word>, isStop: Word -> bool)
    ensures |Records(items, mode, parse, annotate, isStop)| == |items|
    ensures forall i :: 0 <= i < |items| ==> RecordOk(Records(items, mode, parse, annotate, isStop), items, i, mode, parse)
  {
    if items != [] {
      var front := items[..|items| - 1];
      var prev := Records(front, mode, parse, annotate, isStop);
      RecordsOk(front, mode, parse, annotate, isStop);
      forall k | 0 <= k < |prev| ensures RecordOk(prev, items, k, mode, parse) {
        assert RecordOk(prev, front, k, mode, parse);
        assert front[k] == items[k];
      }
      var last := items[|items| - 1];
      ItemQAsOk(last, mode, TotalQAs(prev), parse, annotate, isStop, |last.summary|);
      RecordsAppend(prev, ItemRecord(last, mode, TotalQAs(prev), parse, annotate, isStop), items, mode, parse);
    }
  }

  /** Taking more records never lowers the count. */
  lemma {:induction false} TotalQAsMonotone(cloze: seq<Cloze>, i: nat, j: nat)
    requires i <= j <= |cloze|
    ensures TotalQAs(cloze[..i]) <= TotalQAs(cloze[..j])
    decreases j - i
  {
    if i < j {
      TotalQAsMonotone(cloze, i, j - 1);
      assert cloze[..j][..j - 1] == cloze[..j - 1];
    }
  }

  /** The number carried by pair `j` of record `i`. */
  function PairNumber(cloze: seq<Cloze>, i: nat, j: nat): nat
    requires i < |cloze|
  {
    TotalQAs(cloze[..i]) + j
  }

  /** Pairs at different places get different numbers. */
  lemma PairNumbersDiffer(cloze: seq<Cloze>, i1: nat, j1: nat, i2: nat, j2: nat)
    requires i1 < |cloze| && j1 < |cloze[i1].qas|
    requires i2 < |cloze| && j2 < |cloze[i2].qas|
    requires (i1, j1) != (i2, j2)
    ensures PairNumber(cloze, i1, j1) != PairNumber(cloze, i2, j2)
  {
    if i1 < i2 {
      TotalQAsMonotone(cloze, i1 + 1, i2);
      assert cloze[..i1 + 1][..i1] == cloze[..i1];
    } else if i2 < i1 {
      TotalQAsMonotone(cloze, i2 + 1, i1);
      assert cloze[..i2 + 1][..i2] == cloze[..i2];
    }
  }

  /** Every pair id in the output is unique, across all records. */
  lemma PairIdsUnique(cloze: seq<Cloze>, items: seq<Item>, mode: Mode, parse: string -> NlpDoc,
                      i1: nat, j1: nat, i2: nat, j2: nat)
    requires |cloze| == |items|
    requires forall i :: 0 <= i < |items| ==> RecordOk(cloze, items, i, mode, parse)
    requires i1 < |cloze| && j1 < |cloze[i1].qas|
    requires i2 < |cloze| && j2 < |cloze[i2].qas|
    requires (i1, j1) != (i2, j2)
    ensures cloze[i1].qas[j1].id != cloze[i2].qas[j2].id
  {
    assert RecordOk(cloze, items, i1, mode, parse) && RecordOk(cloze, items, i2, mode, parse);
    PairNumbersDiffer(cloze, i1, j1, i2, j2);
    NumberedIdsDiffer(items[i1].url, items[i2].url, PairNumber(cloze, i1, j1), PairNumber(cloze, i2, j2));
  }
}
