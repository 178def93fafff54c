/** The helpers of the packaged question constructor
    (vietlegalqa/modules/construct/utils.py). They redo the answer extractor's
    work with other choices: trees are walked parent first, clauses are not
    stripped, short comma pieces are merged by word count and the absorbed
    pieces are printed as `enumerate` tuples, clauses are sorted longest
    first, and the answer is looked for in the segment with the HIGHEST
    overlap score only. The annotator is a parameter, as in the extractor. */
module ConstructUtils {
  import opened Wrappers
  import opened PyStr
  import opened StableSort
  import opened ParseTree
  import AnswerExtractor

  /** `POS_TAGS`, in the order the constructor visits them. */
  const PosTags: seq<string> := ["NUM", "NP", "AP", "VP", "S"]

  /** `POS_REPLACE`: the label that masks a span of each tag. */
  const PosReplace: map<string, string> :=
    map["NUM" := "NUMBER", "NP" := "NOUNPHRASE", "AP" := "ADVPHRASE", "VP" := "VERBPHARSE", "S" := "CLAUSE"]

  /** `tree_to_text(node, sep)` as a function value. */
  function Render(sep: string): Tree -> string {
    (t: Tree) => TreeToText(t, sep)
  }

  // ---------------------------------------------------------------------
  // Phrases of one tag: `get_pos`, `get_keys`
  // ---------------------------------------------------------------------

  /** The node's own span first, then the spans of its subtrees. */
  function GetPos(node: Tree, tag: string, sep: string): seq<string>
    decreases node, 1
  {
    if node.IsLeaf() then []
    else (if tag == Upper(node.name) then [TreeToText(node, sep)] else []) + GetPosOf(node.children, tag, sep)
  }

  function GetPosOf(ts: seq<Tree>, tag: string, sep: string): seq<string>
    decreases ts, 0
  {
    if ts == [] then [] else GetPos(ts[0], tag, sep) + GetPosOf(ts[1..], tag, sep)
  }

  /** The spans are the texts of the internal nodes whose upper-cased label is
      the tag, parents before their descendants; a bare word is never a span. */
  lemma {:induction false} GetPosPreOrder(t: Tree, tag: string, sep: string)
    ensures GetPos(t, tag, sep) == Collect(PreOrder(t), AnswerExtractor.HasTag(tag), Render(sep))
    decreases t, 1
  {
    if !t.IsLeaf() {
      GetPosPreOrderOf(t.children, tag, sep);
      CollectAppend([t], PreOrderOf(t.children), AnswerExtractor.HasTag(tag), Render(sep));
      assert [t][1..] == [];
    }
  }

  lemma {:induction false} GetPosPreOrderOf(ts: seq<Tree>, tag: string, sep: string)
    ensures GetPosOf(ts, tag, sep) == Collect(PreOrderOf(ts), AnswerExtractor.HasTag(tag), Render(sep))
    decreases ts, 0
  {
    if ts != [] {
      GetPosPreOrder(ts[0], tag, sep);
      GetPosPreOrderOf(ts[1..], tag, sep);
      CollectAppend(PreOrder(ts[0]), PreOrderOf(ts[1..]), AnswerExtractor.HasTag(tag), Render(sep));
    }
  }

  /** With the default separator this finds the same spans as the extractor's
      `extract_pos`, in another order. */
  lemma GetPosPermutesExtractPos(t: Tree, tag: string)
    ensures multiset(GetPos(t, tag, " ")) == multiset(AnswerExtractor.ExtractPos(t, tag))
  {
    var keep := AnswerExtractor.HasTag(tag);
    GetPosPreOrder(t, tag, " ");
    AnswerExtractor.ExtractPosPostOrder(t, tag);
    PreOrderPermutesPostOrder(t);
    CollectPermutes(PreOrder(t), PostOrder(t), keep, Render(" "));
    CollectSameRender(PostOrder(t), keep, Render(" "), AnswerExtractor.SpanText);
  }

  /** The spans of every sentence, in order. */
  function Keys(sentences: seq<Sentence>, tag: string): seq<string> {
    if sentences == [] then []
    else Keys(sentences[..|sentences| - 1], tag) + GetPos(sentences[|sentences| - 1].tree, tag, " ")
  }

  /** `get_keys`: the loop over the sentences. */
  method GetKeys(doc: NlpDoc, tag: string) returns (keys: seq<string>)
    ensures keys == Keys(doc.sentences, tag)
  {
    keys := [];
    for i := 0 to |doc.sentences|
      invariant keys == Keys(doc.sentences[..i], tag)
    {
      keys := keys + GetPos(doc.sentences[i].tree, tag, " ");
      assert doc.sentences[..i + 1][..i] == doc.sentences[..i];
    }
    assert doc.sentences[..|doc.sentences|] == doc.sentences;
  }

  /** The keys of a summary are the extractor's answers of the same tag, in
      another order. */
  lemma {:induction false} KeysPermutePosAnswers(sentences: seq<Sentence>, tag: string)
    ensures multiset(Keys(sentences, tag)) == multiset(AnswerExtractor.PosAnswers(sentences, tag))
  {
    if sentences != [] {
      var front := sentences[..|sentences| - 1];
      KeysPermutePosAnswers(front, tag);
      GetPosPermutesExtractPos(sentences[|sentences| - 1].tree, tag);
    }
  }

  // ---------------------------------------------------------------------
  // Clauses from "S" nodes: `extract_clauses_constituent`
  // ---------------------------------------------------------------------

  /** The node's own clause first, then the clauses of its subtrees. */
  function ClausesConstituent(node: Tree, threshold: int, sep: string): seq<string>
    decreases node, 1
  {
    if node.IsLeaf() then []
    else
      (if AnswerExtractor.IsLongClause(node, threshold) then [TreeToText(node, sep)] else [])
      + ClausesConstituentOf(node.children, threshold, sep)
  }

  function ClausesConstituentOf(ts: seq<Tree>, threshold: int, sep: string): seq<string>
    decreases ts, 0
  {
    if ts == [] then [] else ClausesConstituent(ts[0], threshold, sep) + ClausesConstituentOf(ts[1..], threshold, sep)
  }

  /** The clauses are the texts of the "S" nodes with more than `threshold`
      words, an enclosing clause before the clauses nested in it. */
  lemma {:induction false} ClausesConstituentPreOrder(t: Tree, threshold: int, sep: string)
    ensures ClausesConstituent(t, threshold, sep)
            == Collect(PreOrder(t), AnswerExtractor.LongClause(threshold), Render(sep))
    decreases t, 1
  {
    if !t.IsLeaf() {
      ClausesConstituentPreOrderOf(t.children, threshold, sep);
      CollectAppend([t], PreOrderOf(t.children), AnswerExtractor.LongClause(threshold), Render(sep));
      assert [t][1..] == [];
    }
  }

  lemma {:induction false} ClausesConstituentPreOrderOf(ts: seq<Tree>, threshold: int, sep: string)
    ensures ClausesConstituentOf(ts, threshold, sep)
            == Collect(PreOrderOf(ts), AnswerExtractor.LongClause(threshold), Render(sep))
    decreases ts, 0
  {
    if ts != [] {
      ClausesConstituentPreOrder(ts[0], threshold, sep);
      ClausesConstituentPreOrderOf(ts[1..], threshold, sep);
      CollectAppend(PreOrder(ts[0]), PreOrderOf(ts[1..]), AnswerExtractor.LongClause(threshold), Render(sep));
    }
  }

  /** `[s.strip() for s in xs]`. */
  function StripEach(xs: seq<string>): (r: seq<string>)
    ensures |r| == |xs|
    ensures forall k :: 0 <= k < |xs| ==> r[k] == Strip(xs[k])
  {
    seq(|xs|, k requires 0 <= k < |xs| => Strip(xs[k]))
  }

  lemma StripEachAppend(xs: seq<string>, ys: seq<string>)
    ensures StripEach(xs + ys) == StripEach(xs) + StripEach(ys)
  {
  }

  /** Collecting stripped texts is stripping the collected texts. */
  lemma {:induction false} CollectStripped(nodes: seq<Tree>, keep: Tree -> bool)
    ensures Collect(nodes, keep, AnswerExtractor.ClauseText) == StripEach(Collect(nodes, keep, Render(" ")))
  {
    if nodes != [] {
      CollectStripped(nodes[1..], keep);
      var n := nodes[0];
      var head := if keep(n) then [TreeToText(n, " ")] else [];
      var tail := Collect(nodes[1..], keep, Render(" "));
      assert Collect(nodes, keep, Render(" ")) == head + tail;
      assert StripEach(head) == if keep(n) then [AnswerExtractor.ClauseText(n)] else [];
      StripEachAppend(head, tail);
    }
  }

  /** Up to stripping and order, these are the extractor's "S" clauses. */
  lemma ClausesConstituentPermuteSClauses(t: Tree, threshold: int)
    ensures multiset(StripEach(ClausesConstituent(t, threshold, " ")))
            == multiset(AnswerExtractor.SClauses(t, threshold))
  {
    var keep := AnswerExtractor.LongClause(threshold);
    ClausesConstituentPreOrder(t, threshold, " ");
    CollectStripped(PreOrder(t), keep);
    AnswerExtractor.SClausesPostOrder(t, threshold);
    PreOrderPermutesPostOrder(t);
    CollectPermutes(PreOrder(t), PostOrder(t), keep, AnswerExtractor.ClauseText);
  }

  // ---------------------------------------------------------------------
  // Comma clauses: `extract_clauses_comma`
  // ---------------------------------------------------------------------

  /** The stripped comma-separated pieces of a sentence text. */
  function Pieces(sent: string): seq<string> {
    StripEach(Split(sent, ','))
  }

  /** The inner loop: while the clause has fewer than `threshold` words, the
      next piece is appended, but printed as the tuple `(k, 'piece')` that
      `enumerate` yields, `k` counting from 0 after the clause's own piece. */
  function Absorb(clause: string, rest: seq<string>, k: nat, threshold: int): string
    decreases |rest|
  {
    if rest == [] then clause
    else if WordCount(clause) < threshold then
      Absorb(clause + " , " + TupleRepr(k, rest[0]), rest[1..], k + 1, threshold)
    else clause
  }

  /** What the clause would become if every later piece were appended. */
  function AbsorbAll(clause: string, rest: seq<string>, k: nat): string
    decreases |rest|
  {
    if rest == [] then clause else AbsorbAll(clause + " , " + TupleRepr(k, rest[0]), rest[1..], k + 1)
  }

  /** The clause emitted for piece `i`: the piece, grown with later pieces. */
  function Fragment(pieces: seq<string>, i: nat, threshold: int): string
    requires i < |pieces|
  {
    Absorb(pieces[i], pieces[i + 1..], 0, threshold)
  }

  /** One clause per piece, none when the text has no comma. */
  function CommaClauses(sent: string, threshold: int): seq<string> {
    var pieces := Pieces(sent);
    if |pieces| > 1 then seq(|pieces|, i requires 0 <= i < |pieces| => Fragment(pieces, i, threshold))
    else []
  }

  /** The comprehension that strips the pieces. */
  method StripPieces(parts: seq<string>) returns (pieces: seq<string>)
    ensures pieces == StripEach(parts)
  {
    pieces := [];
    for p := 0 to |parts|
      invariant pieces == StripEach(parts[..p])
    {
      pieces := pieces + [Strip(parts[p])];
    }
    assert parts[..|parts|] == parts;
  }

  /** The inner loop of `extract_clauses_comma`, over the pieces after the
      clause's own. */
  method AbsorbPieces(clause0: string, rest: seq<string>, threshold: int) returns (clause: string)
    ensures clause == Absorb(clause0, rest, 0, threshold)
  {
    clause := clause0;
    var k := 0;
    while k < |rest|
      invariant 0 <= k <= |rest|
      invariant Absorb(clause, rest[k..], k, threshold) == Absorb(clause0, rest, 0, threshold)
    {
      assert rest[k..][1..] == rest[k + 1..];
      if WordCount(clause) < threshold {
        clause := clause + " , " + TupleRepr(k, rest[k]);
      } else {
        break;
      }
      k := k + 1;
    }
  }

  /** `extract_clauses_comma`: the outer loop over the pieces. */
  method ExtractClausesComma(sent: string, threshold: int) returns (clauses: seq<string>)
    ensures clauses == CommaClauses(sent, threshold)
  {
    clauses := [];
    var pieces := StripPieces(Split(sent, ','));
    if |pieces| > 1 {
      for idx := 0 to |pieces|
        invariant |clauses| == idx
        invariant forall i :: 0 <= i < idx ==> clauses[i] == Fragment(pieces, i, threshold)
      {
        var clause := AbsorbPieces(pieces[idx], pieces[idx + 1..], threshold);
        clauses := clauses + [clause];
      }
    }
  }

  /** A text without a comma yields no clause. */
  lemma CommaClausesNoComma(sent: string, threshold: int)
    requires ',' !in sent
    ensures CommaClauses(sent, threshold) == []
  {
    SplitShape(sent, ',');
  }

  /** With a comma, there is one clause per piece. */
  lemma CommaClausesCount(sent: string, threshold: int)
    requires ',' in sent
    ensures |CommaClauses(sent, threshold)| == |Pieces(sent)| == CountChar(sent, ',') + 1
  {
    SplitShape(sent, ',');
  }

  /** A piece that already has `threshold` words comes out unchanged. */
  lemma CommaClausesKeepLong(sent: string, threshold: int, i: nat)
    requires ',' in sent
    requires i < |Pieces(sent)| && WordCount(Pieces(sent)[i]) >= threshold
    ensures i < |CommaClauses(sent, threshold)| && CommaClauses(sent, threshold)[i] == Pieces(sent)[i]
  {
    CommaClausesCount(sent, threshold);
  }

  /** The last piece has nothing after it to absorb. */
  lemma CommaClausesLast(sent: string, threshold: int)
    requires ',' in sent
    ensures CommaClauses(sent, threshold) != []
    ensures var c := CommaClauses(sent, threshold); var p := Pieces(sent);
      c[|c| - 1] == p[|p| - 1]
  {
    CommaClausesCount(sent, threshold);
    var p := Pieces(sent);
    var n := |p| - 1;
    assert p[n + 1..] == [];
    assert Fragment(p, n, threshold) == p[n];
    assert CommaClauses(sent, threshold)[n] == Fragment(p, n, threshold);
  }

  /** Absorbing only appends. */
  lemma {:induction false} AbsorbExtends(clause: string, rest: seq<string>, k: nat, threshold: int)
    ensures |Absorb(clause, rest, k, threshold)| >= |clause|
    ensures Absorb(clause, rest, k, threshold)[..|clause|] == clause
    decreases |rest|
  {
    if rest != [] && WordCount(clause) < threshold {
      var next := clause + " , " + TupleRepr(k, rest[0]);
      AbsorbExtends(next, rest[1..], k + 1, threshold);
      assert next[..|clause|] == clause;
    }
  }

  /** Every clause starts with its own piece. */
  lemma CommaClausesStartWithPiece(sent: string, threshold: int, i: nat)
    requires ',' in sent
    requires i < |Pieces(sent)|
    ensures i < |CommaClauses(sent, threshold)|
    ensures var c := CommaClauses(sent, threshold)[i]; var p := Pieces(sent)[i];
      |p| <= |c| && c[..|p|] == p
  {
    CommaClausesCount(sent, threshold);
    var pieces := Pieces(sent);
    AbsorbExtends(pieces[i], pieces[i + 1..], 0, threshold);
  }

  /** Absorbing stops only at the threshold: a clause that is still short has
      taken in every later piece. */
  lemma {:induction false} AbsorbStops(clause: string, rest: seq<string>, k: nat, threshold: int)
    ensures var c := Absorb(clause, rest, k, threshold);
      WordCount(c) >= threshold || c == AbsorbAll(clause, rest, k)
    decreases |rest|
  {
    if rest != [] && WordCount(clause) < threshold {
      AbsorbStops(clause + " , " + TupleRepr(k, rest[0]), rest[1..], k + 1, threshold);
    }
  }

  lemma OneCharRepr()
    ensures StrRepr("b") == "'b'"
    ensures NatToString(0) == "0"
  {
    assert ReprQuote("b") == '\'';
    assert ReprBody("b", '\'') == ReprChar('b', '\'') + ReprBody("", '\'');
  }

  /** The absorbed piece is written as the printed `enumerate` pair, not as
      the piece's text. */
  lemma AbsorbPrintsTuple()
    ensures Absorb("a", ["b"], 0, 5) == "a , (0, 'b')"
  {
    OneCharRepr();
    assert WordStart("a", 0);
    assert WordCount("a") == 1;
    assert ["b"][1..] == [];
  }

  // ---------------------------------------------------------------------
  // All clauses of a summary: `extract_clauses`
  // ---------------------------------------------------------------------

  function NegLength(s: string): int {
    -|s|
  }

  /** The constituent clauses of each sentence's tree, then the comma clauses
      of its raw text, in sentence order. */
  function AllClauses(sentences: seq<Sentence>, sThreshold: int, commaThreshold: int, sep: string): seq<string> {
    if sentences == [] then []
    else
      var last := sentences[|sentences| - 1];
      AllClauses(sentences[..|sentences| - 1], sThreshold, commaThreshold, sep)
      + ClausesConstituent(last.tree, sThreshold, sep) + CommaClauses(last.text, commaThreshold)
  }

  /** `extract_clauses`: the clauses sorted longest first. Python's
      `reverse=True` sort is still stable, so clauses of one length keep their
      order of discovery. */
  method ExtractClauses(doc: NlpDoc, sThreshold: int, commaThreshold: int, sep: string)
    returns (clauses: seq<string>)
    ensures forall i, j :: 0 <= i < j < |clauses| ==> |clauses[i]| >= |clauses[j]|
    ensures multiset(clauses) == multiset(AllClauses(doc.sentences, sThreshold, commaThreshold, sep))
    ensures forall n :: WithKey(clauses, NegLength, n)
                        == WithKey(AllClauses(doc.sentences, sThreshold, commaThreshold, sep), NegLength, n)
    ensures clauses == SortBy(AllClauses(doc.sentences, sThreshold, commaThreshold, sep), NegLength)
  {
    var found: seq<string> := [];
    for i := 0 to |doc.sentences|
      invariant found == AllClauses(doc.sentences[..i], sThreshold, commaThreshold, sep)
    {
      var sent := doc.sentences[i];
      var comma := ExtractClausesComma(sent.text, commaThreshold);
      found := found + ClausesConstituent(sent.tree, sThreshold, sep) + comma;
      assert doc.sentences[..i + 1][..i] == doc.sentences[..i];
    }
    assert doc.sentences[..|doc.sentences|] == doc.sentences;
    clauses := SortBy(found, NegLength);
    forall i, j | 0 <= i < j < |clauses| ensures |clauses[i]| >= |clauses[j]| {
      assert NegLength(clauses[i]) <= NegLength(clauses[j]);
    }
    forall n ensures WithKey(clauses, NegLength, n) == WithKey(found, NegLength, n) {
      SortByStable(found, NegLength, n);
    }
  }

  // ---------------------------------------------------------------------
  // Locating the answer: `get_answer_start`
  // ---------------------------------------------------------------------

  /** `len([None for w in q_tokens if w in ctx])`: the question's lemmas,
      counted with repeats, that occur anywhere in the raw segment text. */
  function Hits(qTokens: seq<string>, ctx: string): (n: nat)
    ensures n <= |qTokens|
  {
    if qTokens == [] then 0
    else Hits(qTokens[..|qTokens| - 1], ctx) + (if Find(ctx, qTokens[|qTokens| - 1]) != -1 then 1 else 0)
  }

  /** One entry of `context_rank`. */
  datatype Candidate = Candidate(id: nat, score: nat, start: int)

  function NegScore(c: Candidate): int {
    -(c.score as int)
  }

  /** Every segment with its score and the answer's offset in it. */
  function Candidates(context: seq<string>, answer: string, qTokens: seq<string>): (r: seq<Candidate>)
    ensures |r| == |context|
    ensures forall i :: 0 <= i < |r| ==> r[i] == Candidate(i, Hits(qTokens, context[i]), Find(context[i], answer))
  {
    seq(|context|, i requires 0 <= i < |context| => Candidate(i, Hits(qTokens, context[i]), Find(context[i], answer)))
  }

  /** `get_answer_start`: the first segment with the highest score, and
      `find` of the answer in that segment alone. `None` stands for the
      `IndexError` an empty context raises. The result is -1 as soon as the
      chosen segment lacks the answer, whatever the other segments hold. */
  function GetAnswerStart(answer: string, question: string, context: seq<string>,
                          annotate: string -> seq<Word>, isStop: Word -> bool): (r: Option<(nat, int)>)
    ensures r.None? <==> context == []
    ensures r.Some? ==> r.value.0 < |context| && r.value.1 == Find(context[r.value.0], answer)
    ensures var q := AnswerExtractor.QuestionTokens(annotate(question), isStop);
      r.Some? ==> forall k :: 0 <= k < |context| ==> Hits(q, context[k]) <= Hits(q, context[r.value.0])
    ensures var q := AnswerExtractor.QuestionTokens(annotate(question), isStop);
      r.Some? ==> forall k :: 0 <= k < r.value.0 ==> Hits(q, context[k]) < Hits(q, context[r.value.0])
    ensures r.Some? && r.value.1 >= 0 ==> OccursAt(context[r.value.0], answer, r.value.1)
  {
    if context == [] then None
    else
      var q := AnswerExtractor.QuestionTokens(annotate(question), isStop);
      var candidates := Candidates(context, answer, q);
      var ranked := SortBy(candidates, NegScore);
      SortByHead(candidates, NegScore);
      Some((ranked[0].id, ranked[0].start))
  }

  /** The segment with the most question words wins even when only another
      segment holds the answer: the result is then -1. */
  lemma AnswerInOtherSegmentMissed()
    ensures GetAnswerStart("a", "q", ["x", "ya"], (s: string) => [Word("x", "x")], (w: Word) => false)
            == Some((0, -1))
  {
    var annotate := (s: string) => [Word("x", "x")];
    var isStop := (w: Word) => false;
    var q := AnswerExtractor.QuestionTokens(annotate("q"), isStop);
    assert q == ["x"] by {
      assert annotate("q")[..0] == [];
    }
    assert OccursAt("x", "x", 0);
    assert Hits(q, "x") == 1 by {
      assert q[..0] == [];
    }
    assert Hits(q, "ya") == 0 by {
      assert q[..0] == [];
      assert "ya"[0..1] == "y" && "ya"[1..2] == "a";
      assert !OccursAt("ya", "x", 0) && !OccursAt("ya", "x", 1);
    }
    var r := GetAnswerStart("a", "q", ["x", "ya"], annotate, isStop);
    assert r.value.0 == 0;
    assert !OccursAt("x", "a", 0);
  }

  // ---------------------------------------------------------------------
  // Summary rendering: `get_summary_nlp`
  // ---------------------------------------------------------------------

  /** The words of each sentence joined by `wordSep`. */
  function SentenceTexts(sentences: seq<Sentence>, wordSep: string): (r: seq<string>)
    ensures |r| == |sentences|
  {
    if sentences == [] then []
    else SentenceTexts(sentences[..|sentences| - 1], wordSep) + [TreeToText(sentences[|sentences| - 1].tree, wordSep)]
  }

  /** `get_summary_nlp`: the parse of the summary, and its sentences' words
      re-joined (not stripped). */
  function GetSummaryNlp(summary: string, parse: string -> NlpDoc, wordSep: string, sentSep: string)
    : (r: (string, NlpDoc))
    ensures r.1 == parse(summary)
  {
    var doc := parse(summary);
    (Join(sentSep, SentenceTexts(doc.sentences, wordSep)), doc)
  }

  lemma {:induction false} SentenceTextsDefault(sentences: seq<Sentence>)
    ensures SentenceTexts(sentences, " ") == AnswerExtractor.SentenceTexts(sentences)
  {
    if sentences != [] {
      SentenceTextsDefault(sentences[..|sentences| - 1]);
    }
  }

  /** With the default separators, the two renderings of a summary agree once
      surrounding whitespace is stripped. */
  lemma SummaryAgreesWithExtractor(summary: string, parse: string -> NlpDoc)
    ensures Strip(GetSummaryNlp(summary, parse, " ", " ").0)
            == Strip(AnswerExtractor.SummaryText(parse(summary).sentences))
  {
    SentenceTextsDefault(parse(summary).sentences);
    AnswerExtractor.SummaryIsJoinedSentences(parse(summary).sentences);
  }
}
