/** The packaged question constructor
    (vietlegalqa/modules/construct/constructor.py). For every article of a
    document and every sentence of its summary it masks part-of-speech spans
    and named entities in clauses of the summary, locates each answer in one
    segment of the article's context and appends a `QAPair` to its dataset.

    The constructor's behaviour is specified in two layers. `DocumentOutcomes`
    lists, in processing order, what each candidate answer gives: nothing, a
    pair to append, or the `IndexError` that stops the run. `Run` applies such
    a list to the dataset's dictionary. The methods of `QAConstruct` are
    proved to do exactly `Run` of the outcomes; the lemmas below say what
    `Run` does to the dictionary and what every appended pair satisfies. */
module Constructor {
  import opened Wrappers
  import opened PyStr
  import opened ParseTree
  import opened OrderedDict
  import opened StableSort
  import opened ConstructUtils
  import opened QAData
  import AnswerExtractor
  import DocData

  // ---------------------------------------------------------------------
  // The keys dictionary and its guard
  // ---------------------------------------------------------------------

  /** The keys of the `keys` dictionary, in insertion order. */
  const KeyTags: seq<string> := PosTags + ["NE"]

  /** `sum(len(x) for x in xs[i:])`. */
  function SumLengths(xs: seq<string>, i: nat): nat
    decreases |xs| - i
  {
    if i >= |xs| then 0 else |xs[i]| + SumLengths(xs, i + 1)
  }

  /** The "no candidates" guard sums `len(key) for key in keys`, the lengths
      of the tag NAMES, which come to 12: it never skips a summary. */
  lemma GuardNeverSkips()
    ensures SumLengths(KeyTags, 0) == 12
  {
    var ks := KeyTags;
    assert ks == ["NUM", "NP", "AP", "VP", "S", "NE"];
    assert SumLengths(ks, 6) == 0;
    assert SumLengths(ks, 5) == 2;
    assert SumLengths(ks, 4) == 3;
    assert SumLengths(ks, 3) == 5;
    assert SumLengths(ks, 2) == 7;
    assert SumLengths(ks, 1) == 9;
  }

  // ---------------------------------------------------------------------
  // What one candidate answer gives
  // ---------------------------------------------------------------------

  /** A pair to append, before it gets its id: the id prefix, the article
      and segment it points at, the question, the answer, where the answer
      starts in the segment, and its type. */
  datatype Draft = Draft(prefix: string, articleId: string, segment: nat,
                         question: string, answer: string, start: int, kind: string)

  /** What a candidate answer gives: nothing (`continue`), a pair, or the
      `IndexError` that `get_answer_start` raises on an empty context. */
  datatype Outcome = Skip | Emit(draft: Draft) | Fail

  /** The id of the pair appended when the dataset holds `n` pairs. */
  function NumberedId(prefix: string, n: nat): string {
    prefix + "_" + NatToString(n)
  }

  /** The pair appended for a draft when the dataset holds `n` pairs. */
  function PairOf(x: Draft, n: nat): QAPair {
    MakeQAPair(NumberedId(x.prefix, n), x.articleId + "__" + NatToString(x.segment),
               x.question, x.answer, x.start, x.kind, false)
  }

  /** A draft is sound for article `a`: it points at a segment of `a`, the
      answer is not empty, and it starts at `start` in that segment, its
      first occurrence there. */
  predicate DraftOf(a: DocData.Article, x: Draft) {
    x.articleId == a.id && x.segment < |a.context| && x.answer != []
    && x.start >= 0 && OccursAt(a.context[x.segment], x.answer, x.start)
    && x.start == Find(a.context[x.segment], x.answer)
  }

  /** A span answer masked by `mask` (`POS_REPLACE[tag]`): empty answers and
      answers no clause contains are skipped; the question is the first
      clause containing the answer with its first occurrence replaced by the
      mask; a segment without the answer skips it. */
  function SpanOutcome(a: DocData.Article, clauses: seq<string>, mask: string, answer: string,
                       annotate: string -> seq<Word>, isStop: Word -> bool): (r: Outcome)
    ensures r.Fail? <==> answer != [] && AnswerExtractor.FirstContaining(clauses, answer) >= 0 && a.context == []
    ensures r.Emit? ==> DraftOf(a, r.draft) && r.draft.prefix == "tvpl" && r.draft.kind == mask
    ensures r.Emit? ==> (r.draft.answer == answer && AnswerExtractor.FirstContaining(clauses, answer) >= 0
      && r.draft.question == ReplaceFirst(clauses[AnswerExtractor.FirstContaining(clauses, answer)], answer, mask))
    ensures r.Emit? ==> Contains(r.draft.question, mask)
    ensures var i := AnswerExtractor.FirstContaining(clauses, answer);
      r.Emit? <==> answer != [] && i >= 0 && a.context != []
                   && GetAnswerStart(answer, ReplaceFirst(clauses[i], answer, mask), a.context, annotate, isStop).value.1 != -1
    ensures r.Emit? ==> Some((r.draft.segment, r.draft.start)) == GetAnswerStart(answer, r.draft.question, a.context, annotate, isStop)
  {
    if answer == [] then Skip
    else
      var i := AnswerExtractor.FirstContaining(clauses, answer);
      if i == -1 then Skip
      else
        var question := ReplaceFirst(clauses[i], answer, mask);
        ReplaceFirstContainsReplacement(clauses[i], answer, mask);
        match GetAnswerStart(answer, question, a.context, annotate, isStop)
        case None => Fail
        case Some((cid, start)) =>
          if start == -1 then Skip
          else Emit(Draft("tvpl", a.id, cid, question, answer, start, mask))
  }

  /** A named entity's question: the first clause containing the entity,
      else the words of the first sentence ending at or after it, with the
      entity's first occurrence replaced by its type; `None` when neither
      exists. */
  function EntityQuestion(clauses: seq<string>, sentences: seq<Sentence>, e: Entity): (q: Option<string>)
    ensures q.None? <==> AnswerExtractor.FirstContaining(clauses, e.text) == -1
                         && AnswerExtractor.FirstCovering(sentences, e.endChar) == -1
    ensures AnswerExtractor.FirstContaining(clauses, e.text) >= 0 ==>
      q == Some(ReplaceFirst(clauses[AnswerExtractor.FirstContaining(clauses, e.text)], e.text, e.kind))
    ensures var j := AnswerExtractor.FirstCovering(sentences, e.endChar);
      AnswerExtractor.FirstContaining(clauses, e.text) == -1 && j >= 0 ==>
        q == Some(ReplaceFirst(TreeToText(sentences[j].tree, " "), e.text, e.kind))
  {
    var i := AnswerExtractor.FirstContaining(clauses, e.text);
    if i >= 0 then Some(ReplaceFirst(clauses[i], e.text, e.kind))
    else
      var j := AnswerExtractor.FirstCovering(sentences, e.endChar);
      if j >= 0 then Some(ReplaceFirst(TreeToText(sentences[j].tree, " "), e.text, e.kind))
      else None
  }

  /** A named entity: empty texts and entities without a question are
      skipped, as are entities the chosen segment lacks. */
  function EntityOutcome(a: DocData.Article, clauses: seq<string>, sentences: seq<Sentence>, e: Entity,
                         idPrefix: string, annotate: string -> seq<Word>, isStop: Word -> bool): (r: Outcome)
    ensures r.Fail? <==> e.text != [] && EntityQuestion(clauses, sentences, e).Some? && a.context == []
    ensures r.Emit? ==> DraftOf(a, r.draft) && r.draft.prefix == idPrefix && r.draft.kind == e.kind
    ensures r.Emit? ==> (r.draft.answer == e.text
      && Some(r.draft.question) == EntityQuestion(clauses, sentences, e))
    ensures var q := EntityQuestion(clauses, sentences, e);
      r.Emit? <==> e.text != [] && q.Some? && a.context != []
                   && GetAnswerStart(e.text, q.value, a.context, annotate, isStop).value.1 != -1
    ensures r.Emit? ==> Some((r.draft.segment, r.draft.start)) == GetAnswerStart(e.text, r.draft.question, a.context, annotate, isStop)
  {
    if e.text == [] then Skip
    else
      match EntityQuestion(clauses, sentences, e)
      case None => Skip
      case Some(question) =>
        match GetAnswerStart(e.text, question, a.context, annotate, isStop)
        case None => Fail
        case Some((cid, start)) =>
          if start == -1 then Skip
          else Emit(Draft(idPrefix, a.id, cid, question, e.text, start, e.kind))
  }

  // ---------------------------------------------------------------------
  // The outcomes of a whole run, in processing order
  // ---------------------------------------------------------------------

  /** The outcomes of each element of `xs`, concatenated in order. */
  function FlatMap<T>(xs: seq<T>, f: T -> seq<Outcome>): seq<Outcome> {
    if xs == [] then [] else FlatMap(xs[..|xs| - 1], f) + f(xs[|xs| - 1])
  }

  /** The outcomes of a list are those of its front then those of its
      back. */
  lemma {:induction false} FlatMapSplit<T>(xs: seq<T>, f: T -> seq<Outcome>, j: nat)
    requires j <= |xs|
    ensures FlatMap(xs, f) == FlatMap(xs[..j], f) + FlatMap(xs[j..], f)
  {
    if j < |xs| {
      var n := |xs| - 1;
      FlatMapSplit(xs[..n], f, j);
      assert xs[..n][..j] == xs[..j];
      assert xs[j..][..|xs[j..]| - 1] == xs[..n][j..];
      assert xs[j..][|xs[j..]| - 1] == xs[n];
    } else {
      assert xs[..j] == xs;
      assert xs[j..] == [];
    }
  }

  /** Every outcome of a list comes from one of its elements. */
  lemma {:induction false} FlatMapMember<T>(xs: seq<T>, f: T -> seq<Outcome>, o: Outcome)
    requires o in FlatMap(xs, f)
    ensures exists i :: 0 <= i < |xs| && o in f(xs[i])
  {
    var n := |xs| - 1;
    if o !in f(xs[n]) {
      FlatMapMember(xs[..n], f, o);
      var i :| 0 <= i < n && o in f(xs[..n][i]);
      assert xs[..n][i] == xs[i];
    }
  }

  function SpanStep(a: DocData.Article, clauses: seq<string>, mask: string,
                    annotate: string -> seq<Word>, isStop: Word -> bool): string -> seq<Outcome> {
    (answer: string) => [SpanOutcome(a, clauses, mask, answer, annotate, isStop)]
  }

  /** The span answers of one tag. Every tag of `POS_TAGS` has a mask. */
  function TagStep(a: DocData.Article, clauses: seq<string>, doc: NlpDoc,
                   annotate: string -> seq<Word>, isStop: Word -> bool): string -> seq<Outcome> {
    (tag: string) =>
      if tag in PosReplace then FlatMap(Keys(doc.sentences, tag), SpanStep(a, clauses, PosReplace[tag], annotate, isStop))
      else []
  }

  function EntityStep(a: DocData.Article, clauses: seq<string>, sentences: seq<Sentence>, idPrefix: string,
                      annotate: string -> seq<Word>, isStop: Word -> bool): Entity -> seq<Outcome> {
    (e: Entity) => [EntityOutcome(a, clauses, sentences, e, idPrefix, annotate, isStop)]
  }

  /** The clauses of a parsed summary, longest first. */
  function SummaryClauses(doc: NlpDoc): seq<string> {
    SortBy(AllClauses(doc.sentences, 3, 5, " "), NegLength)
  }

  /** One summary sentence: nothing when it has no clause; otherwise the
      span answers of NUM, NP, AP, VP and S, in that order, then the named
      entities. */
  function SummaryOutcomes(a: DocData.Article, doc: NlpDoc, idPrefix: string,
                           annotate: string -> seq<Word>, isStop: Word -> bool): seq<Outcome> {
    var clauses := SummaryClauses(doc);
    if clauses == [] then []
    else FlatMap(PosTags, TagStep(a, clauses, doc, annotate, isStop))
         + FlatMap(doc.ents, EntityStep(a, clauses, doc.sentences, idPrefix, annotate, isStop))
  }

  function SummaryStep(a: DocData.Article, idPrefix: string, parse: string -> NlpDoc,
                       annotate: string -> seq<Word>, isStop: Word -> bool): string -> seq<Outcome> {
    (summary: string) => SummaryOutcomes(a, parse(summary), idPrefix, annotate, isStop)
  }

  function ArticleStep(idPrefix: string, parse: string -> NlpDoc,
                       annotate: string -> seq<Word>, isStop: Word -> bool): DocData.Article -> seq<Outcome> {
    (a: DocData.Article) => FlatMap(a.summary, SummaryStep(a, idPrefix, parse, annotate, isStop))
  }

  /** The outcomes of a run over the articles, in document order. */
  function DocumentOutcomes(articles: seq<DocData.Article>, idPrefix: string, parse: string -> NlpDoc,
                            annotate: string -> seq<Word>, isStop: Word -> bool): seq<Outcome> {
    FlatMap(articles, ArticleStep(idPrefix, parse, annotate, isStop))
  }

  /** Every pair a run would append is sound for one of the articles. */
  lemma DocumentDraftsSound(articles: seq<DocData.Article>, idPrefix: string, parse: string -> NlpDoc,
                            annotate: string -> seq<Word>, isStop: Word -> bool, x: Draft)
    requires Emit(x) in DocumentOutcomes(articles, idPrefix, parse, annotate, isStop)
    ensures exists i :: 0 <= i < |articles| && DraftOf(articles[i], x)
  {
    var o := Emit(x);
    var step := ArticleStep(idPrefix, parse, annotate, isStop);
    FlatMapMember(articles, step, o);
    var i :| 0 <= i < |articles| && o in step(articles[i]);
    var a := articles[i];
    var sstep := SummaryStep(a, idPrefix, parse, annotate, isStop);
    FlatMapMember(a.summary, sstep, o);
    var k :| 0 <= k < |a.summary| && o in sstep(a.summary[k]);
    SummaryOutcomesSound(a, parse(a.summary[k]), idPrefix, annotate, isStop, o);
  }

  /** A span answer appends a pair sound for the article, and fails only
      for an article without context. */
  lemma SpanOutcomesSound(a: DocData.Article, clauses: seq<string>, mask: string, answers: seq<string>,
                          annotate: string -> seq<Word>, isStop: Word -> bool, o: Outcome)
    requires o in FlatMap(answers, SpanStep(a, clauses, mask, annotate, isStop))
    ensures o.Emit? ==> DraftOf(a, o.draft)
    ensures o.Fail? ==> a.context == []
  {
    FlatMapMember(answers, SpanStep(a, clauses, mask, annotate, isStop), o);
  }

  /** The same for the span answers of every tag. */
  lemma TagOutcomesSound(a: DocData.Article, clauses: seq<string>, doc: NlpDoc,
                         annotate: string -> seq<Word>, isStop: Word -> bool, o: Outcome)
    requires o in FlatMap(PosTags, TagStep(a, clauses, doc, annotate, isStop))
    ensures o.Emit? ==> DraftOf(a, o.draft)
    ensures o.Fail? ==> a.context == []
  {
    var tstep := TagStep(a, clauses, doc, annotate, isStop);
    FlatMapMember(PosTags, tstep, o);
    var t :| 0 <= t < |PosTags| && o in tstep(PosTags[t]);
    var tag := PosTags[t];
    assert tag in PosReplace;
    SpanOutcomesSound(a, clauses, PosReplace[tag], Keys(doc.sentences, tag), annotate, isStop, o);
  }

  /** The same for the named-entity answers. */
  lemma EntityOutcomesSound(a: DocData.Article, clauses: seq<string>, sentences: seq<Sentence>, ents: seq<Entity>,
                            idPrefix: string, annotate: string -> seq<Word>, isStop: Word -> bool, o: Outcome)
    requires o in FlatMap(ents, EntityStep(a, clauses, sentences, idPrefix, annotate, isStop))
    ensures o.Emit? ==> DraftOf(a, o.draft)
    ensures o.Fail? ==> a.context == []
  {
    FlatMapMember(ents, EntityStep(a, clauses, sentences, idPrefix, annotate, isStop), o);
  }

  /** Every outcome of a summary sentence: an appended pair is sound for the
      article, and a failure means the article has no context. */
  lemma SummaryOutcomesSound(a: DocData.Article, doc: NlpDoc, idPrefix: string,
                             annotate: string -> seq<Word>, isStop: Word -> bool, o: Outcome)
    requires o in SummaryOutcomes(a, doc, idPrefix, annotate, isStop)
    ensures o.Emit? ==> DraftOf(a, o.draft)
    ensures o.Fail? ==> a.context == []
  {
    var clauses := SummaryClauses(doc);
    if o in FlatMap(PosTags, TagStep(a, clauses, doc, annotate, isStop)) {
      TagOutcomesSound(a, clauses, doc, annotate, isStop, o);
    } else {
      EntityOutcomesSound(a, clauses, doc.sentences, doc.ents, idPrefix, annotate, isStop, o);
    }
  }

  // ---------------------------------------------------------------------
  // Applying outcomes to the dataset
  // ---------------------------------------------------------------------

  /** The dictionary after the outcomes, and whether the run got to the
      end: a pair is appended under the id numbered by the dictionary's
      size, and the first `Fail` stops everything. */
  function Run(d: Dict<string, QAPair>, outs: seq<Outcome>): (Dict<string, QAPair>, bool)
    decreases |outs|
  {
    if outs == [] then (d, true)
    else
      match outs[0]
      case Fail => (d, false)
      case Skip => Run(d, outs[1..])
      case Emit(x) => Run(Put(d, NumberedId(x.prefix, |d.keys|), PairOf(x, |d.keys|)), outs[1..])
  }

  /** Running two lists is running the first, then, unless it failed, the
      second. */
  lemma {:induction false} RunAppend(d: Dict<string, QAPair>, xs: seq<Outcome>, ys: seq<Outcome>)
    ensures Run(d, xs + ys) == if Run(d, xs).1 then Run(Run(d, xs).0, ys) else Run(d, xs)
    decreases |xs|
  {
    if xs != [] {
      assert (xs + ys)[0] == xs[0];
      assert (xs + ys)[1..] == xs[1..] + ys;
      match xs[0]
      case Fail =>
      case Skip => RunAppend(d, xs[1..], ys);
      case Emit(x) =>
        RunAppend(Put(d, NumberedId(x.prefix, |d.keys|), PairOf(x, |d.keys|)), xs[1..], ys);
    } else {
      assert xs + ys == ys;
    }
  }

  /** One step of a loop over `xs` whose body runs `f(xs[i])`: a success
      extends the prefix run, a failure is the failure of the whole loop. */
  lemma RunLoopStep<T>(d0: Dict<string, QAPair>, xs: seq<T>, f: T -> seq<Outcome>, i: nat,
                       mid: Dict<string, QAPair>, d: Dict<string, QAPair>, ok: bool)
    requires i < |xs|
    requires Run(d0, FlatMap(xs[..i], f)) == (mid, true)
    requires Run(mid, f(xs[i])) == (d, ok)
    ensures ok ==> Run(d0, FlatMap(xs[..i + 1], f)) == (d, true)
    ensures !ok ==> Run(d0, FlatMap(xs, f)) == (d, false)
  {
    assert xs[..i + 1][..i] == xs[..i];
    RunAppend(d0, FlatMap(xs[..i], f), f(xs[i]));
    if !ok {
      FlatMapSplit(xs, f, i + 1);
      RunAppend(d0, FlatMap(xs[..i + 1], f), FlatMap(xs[i + 1..], f));
    }
  }

  /** A run that failed somewhere in its outcomes met a `Fail`. */
  lemma {:induction false} RunFlag(d: Dict<string, QAPair>, outs: seq<Outcome>)
    ensures Run(d, outs).1 <==> Fail !in outs
    decreases |outs|
  {
    if outs != [] {
      assert outs == [outs[0]] + outs[1..];
      match outs[0]
      case Fail =>
      case Skip => RunFlag(d, outs[1..]);
      case Emit(x) => RunFlag(Put(d, NumberedId(x.prefix, |d.keys|), PairOf(x, |d.keys|)), outs[1..]);
    }
  }

  /** The pairs a run appends: the drafts before the first `Fail`. */
  function Emitted(outs: seq<Outcome>): seq<Draft>
    decreases |outs|
  {
    if outs == [] then []
    else
      match outs[0]
      case Fail => []
      case Skip => Emitted(outs[1..])
      case Emit(x) => [x] + Emitted(outs[1..])
  }

  /** The ids a run gives the drafts `xs` when the dataset holds `base`
      pairs. */
  function Ids(xs: seq<Draft>, base: nat): (ids: seq<string>)
    ensures |ids| == |xs|
  {
    seq(|xs|, j requires 0 <= j < |xs| => NumberedId(xs[j].prefix, base + j))
  }

  /** Every id is numbered by its position. */
  ghost predicate Numbered(d: Dict<string, QAPair>) {
    forall k :: 0 <= k < |d.keys| ==> AfterLast(d.keys[k], '_') == NatToString(k)
  }

  /** The id numbered by the size of a numbered dictionary is new to it, and
      adding it keeps the dictionary numbered. */
  lemma FreshId(d: Dict<string, QAPair>, prefix: string, v: QAPair)
    requires OrderedDict.Valid(d) && Numbered(d)
    ensures NumberedId(prefix, |d.keys|) !in d.entries
    ensures Put(d, NumberedId(prefix, |d.keys|), v).keys == d.keys + [NumberedId(prefix, |d.keys|)]
    ensures Numbered(Put(d, NumberedId(prefix, |d.keys|), v))
  {
    var n := |d.keys|;
    var id := NumberedId(prefix, n);
    NumberedSuffix(prefix, n);
    if id in d.entries {
      var k :| 0 <= k < n && d.keys[k] == id;
      NatToStringInjective(k, n);
    }
  }

  lemma IdsCons(x: Draft, xs: seq<Draft>, base: nat)
    ensures Ids([x] + xs, base) == [NumberedId(x.prefix, base)] + Ids(xs, base + 1)
  {
  }

  /** The dictionary after the pair of draft `x`. */
  function PutDraft(d: Dict<string, QAPair>, x: Draft): Dict<string, QAPair> {
    Put(d, NumberedId(x.prefix, |d.keys|), PairOf(x, |d.keys|))
  }

  /** `Run` and `Emitted` unfolded once. */
  lemma RunCons(d: Dict<string, QAPair>, outs: seq<Outcome>)
    requires outs != []
    ensures outs[0].Fail? ==> Run(d, outs) == (d, false) && Emitted(outs) == []
    ensures outs[0].Skip? ==> Run(d, outs) == Run(d, outs[1..]) && Emitted(outs) == Emitted(outs[1..])
    ensures outs[0].Emit? ==> Run(d, outs) == Run(PutDraft(d, outs[0].draft), outs[1..])
                              && Emitted(outs) == [outs[0].draft] + Emitted(outs[1..])
  {
  }

  /** Every appended draft is the draft of an `Emit` among the outcomes. */
  lemma {:induction false} EmittedFrom(outs: seq<Outcome>, j: nat)
    requires j < |Emitted(outs)|
    ensures Emit(Emitted(outs)[j]) in outs
    decreases |outs|
  {
    if outs[0].Skip? {
      EmittedFrom(outs[1..], j);
    } else if j > 0 {
      EmittedFrom(outs[1..], j - 1);
    }
  }

  lemma SnocAppend(xs: seq<string>, y: string, zs: seq<string>)
    ensures xs + [y] + zs == xs + ([y] + zs)
  {
  }

  /** A run on a well-formed, numbered dictionary keeps it so and appends
      exactly one new id per emitted pair, numbered by the size before it,
      after the ids already there. */
  lemma {:induction false} RunKeys(d: Dict<string, QAPair>, outs: seq<Outcome>)
    requires OrderedDict.Valid(d) && Numbered(d)
    ensures OrderedDict.Valid(Run(d, outs).0) && Numbered(Run(d, outs).0)
    ensures Run(d, outs).0.keys == d.keys + Ids(Emitted(outs), |d.keys|)
    decreases |outs|
  {
    if outs == [] || outs[0].Fail? {
      assert Emitted(outs) == [];
      assert d.keys + Ids([], |d.keys|) == d.keys;
    } else {
      RunCons(d, outs);
      if outs[0].Skip? {
        RunKeys(d, outs[1..]);
      } else {
        var x, n := outs[0].draft, |d.keys|;
        var rest := Emitted(outs[1..]);
        var id := NumberedId(x.prefix, n);
        FreshId(d, x.prefix, PairOf(x, n));
        RunKeys(PutDraft(d, x), outs[1..]);
        IdsCons(x, rest, n);
        calc {
          Run(d, outs).0.keys;
          Run(PutDraft(d, x), outs[1..]).0.keys;
          PutDraft(d, x).keys + Ids(rest, n + 1);
          { SnocAppend(d.keys, id, Ids(rest, n + 1)); }
          d.keys + ([id] + Ids(rest, n + 1));
          d.keys + Ids(Emitted(outs), n);
        }
      }
    }
  }

  /** A run never changes a pair that was already there. */
  lemma {:induction false} RunKeepsOld(d: Dict<string, QAPair>, outs: seq<Outcome>, k: string)
    requires OrderedDict.Valid(d) && Numbered(d) && k in d.entries
    ensures k in Run(d, outs).0.entries && Run(d, outs).0.entries[k] == d.entries[k]
    decreases |outs|
  {
    if outs != [] && !outs[0].Fail? {
      RunCons(d, outs);
      if outs[0].Skip? {
        RunKeepsOld(d, outs[1..], k);
      } else {
        var x, n := outs[0].draft, |d.keys|;
        FreshId(d, x.prefix, PairOf(x, n));
        PutLookup(d, NumberedId(x.prefix, n), PairOf(x, n), k);
        RunKeepsOld(PutDraft(d, x), outs[1..], k);
      }
    }
  }

  /** Each draft of `xs` holds its pair in `r`, under the id numbered from
      `base` by its position. */
  predicate NewEntries(r: Dict<string, QAPair>, xs: seq<Draft>, base: nat)
    decreases |xs|
  {
    xs == [] ||
    (NumberedId(xs[0].prefix, base) in r.entries && r.entries[NumberedId(xs[0].prefix, base)] == PairOf(xs[0], base)
     && NewEntries(r, xs[1..], base + 1))
  }

  lemma NewEntriesCons(r: Dict<string, QAPair>, x: Draft, xs: seq<Draft>, base: nat)
    requires NumberedId(x.prefix, base) in r.entries && r.entries[NumberedId(x.prefix, base)] == PairOf(x, base)
    requires NewEntries(r, xs, base + 1)
    ensures NewEntries(r, [x] + xs, base)
  {
    assert ([x] + xs)[1..] == xs;
  }

  /** The `j`-th draft holds its pair under the id numbered `base + j`. */
  lemma {:induction false} NewEntriesAt(r: Dict<string, QAPair>, xs: seq<Draft>, base: nat, j: nat)
    requires NewEntries(r, xs, base) && j < |xs|
    ensures NumberedId(xs[j].prefix, base + j) in r.entries
    ensures r.entries[NumberedId(xs[j].prefix, base + j)] == PairOf(xs[j], base + j)
    decreases j
  {
    if j > 0 {
      NewEntriesAt(r, xs[1..], base + 1, j - 1);
    }
  }

  lemma NewEntriesAll(r: Dict<string, QAPair>, xs: seq<Draft>, base: nat)
    requires NewEntries(r, xs, base)
    ensures forall j :: 0 <= j < |xs| ==>
      NumberedId(xs[j].prefix, base + j) in r.entries && r.entries[NumberedId(xs[j].prefix, base + j)] == PairOf(xs[j], base + j)
  {
    forall j | 0 <= j < |xs|
      ensures NumberedId(xs[j].prefix, base + j) in r.entries
      ensures r.entries[NumberedId(xs[j].prefix, base + j)] == PairOf(xs[j], base + j)
    {
      NewEntriesAt(r, xs, base, j);
    }
  }

  /** Every appended draft holds its pair under its numbered id. */
  lemma {:induction false} RunNew(d: Dict<string, QAPair>, outs: seq<Outcome>)
    requires OrderedDict.Valid(d) && Numbered(d)
    ensures NewEntries(Run(d, outs).0, Emitted(outs), |d.keys|)
    decreases |outs|
  {
    if outs != [] && !outs[0].Fail? {
      RunCons(d, outs);
      if outs[0].Skip? {
        RunNew(d, outs[1..]);
      } else {
        var x, n := outs[0].draft, |d.keys|;
        var id := NumberedId(x.prefix, n);
        FreshId(d, x.prefix, PairOf(x, n));
        var d' := PutDraft(d, x);
        RunNew(d', outs[1..]);
        PutLookup(d, id, PairOf(x, n), id);
        RunKeepsOld(d', outs[1..], id);
        NewEntriesCons(Run(d, outs).0, x, Emitted(outs[1..]), n);
      }
    } else {
      assert Emitted(outs) == [];
    }
  }

  /** What a run does to a well-formed, numbered dictionary: it stays so;
      its keys are the old ones followed by one numbered id per emitted
      draft; every old pair is unchanged; each new id holds its draft's
      pair; and the run reaches its end unless an outcome is a `Fail`. */
  lemma RunSpec(d: Dict<string, QAPair>, outs: seq<Outcome>)
    requires OrderedDict.Valid(d) && Numbered(d)
    ensures OrderedDict.Valid(Run(d, outs).0) && Numbered(Run(d, outs).0)
    ensures Run(d, outs).1 <==> Fail !in outs
    ensures Run(d, outs).0.keys == d.keys + Ids(Emitted(outs), |d.keys|)
    ensures forall k :: k in d.entries ==> k in Run(d, outs).0.entries && Run(d, outs).0.entries[k] == d.entries[k]
    ensures forall j :: 0 <= j < |Emitted(outs)| ==>
      NumberedId(Emitted(outs)[j].prefix, |d.keys| + j) in Run(d, outs).0.entries
      && Run(d, outs).0.entries[NumberedId(Emitted(outs)[j].prefix, |d.keys| + j)] == PairOf(Emitted(outs)[j], |d.keys| + j)
  {
    RunFlag(d, outs);
    RunKeys(d, outs);
    forall k | k in d.entries
      ensures k in Run(d, outs).0.entries && Run(d, outs).0.entries[k] == d.entries[k]
    {
      RunKeepsOld(d, outs, k);
    }
    RunNew(d, outs);
    NewEntriesAll(Run(d, outs).0, Emitted(outs), |d.keys|);
  }

  /** Every pair a run over a document appends is sound for one of its
      articles. */
  lemma EmittedSound(articles: seq<DocData.Article>, idPrefix: string, parse: string -> NlpDoc,
                     annotate: string -> seq<Word>, isStop: Word -> bool, outs: seq<Outcome>)
    requires outs == DocumentOutcomes(articles, idPrefix, parse, annotate, isStop)
    ensures forall x :: x in Emitted(outs) ==> exists i :: 0 <= i < |articles| && DraftOf(articles[i], x)
  {
    forall x | x in Emitted(outs)
      ensures exists i :: 0 <= i < |articles| && DraftOf(articles[i], x)
    {
      var j :| 0 <= j < |Emitted(outs)| && Emitted(outs)[j] == x;
      EmittedFrom(outs, j);
      DocumentDraftsSound(articles, idPrefix, parse, annotate, isStop, x);
    }
  }

  /** Only an article without context segments can stop a run. */
  lemma FailMeansEmptyContext(articles: seq<DocData.Article>, idPrefix: string, parse: string -> NlpDoc,
                              annotate: string -> seq<Word>, isStop: Word -> bool)
    requires Fail in DocumentOutcomes(articles, idPrefix, parse, annotate, isStop)
    ensures exists i :: 0 <= i < |articles| && articles[i].context == []
  {
    var step := ArticleStep(idPrefix, parse, annotate, isStop);
    FlatMapMember(articles, step, Fail);
    var i :| 0 <= i < |articles| && Fail in step(articles[i]);
    var a := articles[i];
    var sstep := SummaryStep(a, idPrefix, parse, annotate, isStop);
    FlatMapMember(a.summary, sstep, Fail);
    var k :| 0 <= k < |a.summary| && Fail in sstep(a.summary[k]);
    SummaryOutcomesSound(a, parse(a.summary[k]), idPrefix, annotate, isStop, Fail);
  }

  // ---------------------------------------------------------------------
  // `QAConstruct`
  // ---------------------------------------------------------------------

  /** `QAConstruct`: the dataset it fills and the annotators it uses (the
      parser of summaries, the tagger of questions, and the stop-word test
      `is_stop`). */
  class QAConstruct {
    const data: QADataset
    const parse: string -> NlpDoc
    const annotate: string -> seq<Word>
    const isStop: Word -> bool

    ghost predicate Valid()
      reads this, data
    {
      data.Valid() && Numbered(data.data)
    }

    /** `QAConstruct(stopwords, parser, pos)`: an empty dataset. */
    constructor (parse: string -> NlpDoc, annotate: string -> seq<Word>, isStop: Word -> bool)
      ensures Valid() && fresh(data) && data.data == Empty()
      ensures this.parse == parse && this.annotate == annotate && this.isStop == isStop
    {
      data := new QADataset(QAData.NoData);
      this.parse := parse;
      this.annotate := annotate;
      this.isStop := isStop;
    }

    /** Appends the pair of an `Emit`; reports a `Fail`. */
    method Record(o: Outcome) returns (ok: bool)
      requires Valid()
      modifies data
      ensures Valid()
      ensures (data.data, ok) == Run(old(data.data), [o])
    {
      match o
      case Fail => ok := false;
      case Skip => ok := true;
      case Emit(x) =>
        var n := data.Len();
        FreshId(data.data, x.prefix, PairOf(x, n));
        data.Append(PairOf(x, n));
        ok := true;
    }

    /** One span answer, up to the pair it would append. */
    method SpanAnswer(a: DocData.Article, clauses: seq<string>, mask: string, answer: string)
      returns (o: Outcome)
      ensures o == SpanOutcome(a, clauses, mask, answer, annotate, isStop)
    {
      if |answer| == 0 {
        return Skip;
      }
      var i := AnswerExtractor.ClauseWith(clauses, answer);
      if i == -1 {
        return Skip;
      }
      var question := ReplaceFirst(clauses[i], answer, mask);
      match GetAnswerStart(answer, question, a.context, annotate, isStop)
      case None => o := Fail;
      case Some((cid, start)) =>
        o := if start == -1 then Skip else Emit(Draft("tvpl", a.id, cid, question, answer, start, mask));
    }

    /** One named entity, up to the pair it would append. */
    method EntityAnswer(a: DocData.Article, clauses: seq<string>, sentences: seq<Sentence>, e: Entity,
                        idPrefix: string) returns (o: Outcome)
      ensures o == EntityOutcome(a, clauses, sentences, e, idPrefix, annotate, isStop)
    {
      if |e.text| == 0 {
        return Skip;
      }
      var question: string;
      var i := AnswerExtractor.ClauseWith(clauses, e.text);
      if i != -1 {
        question := ReplaceFirst(clauses[i], e.text, e.kind);
      } else {
        var j := AnswerExtractor.CoveringSentence(sentences, e.endChar);
        if j == -1 {
          return Skip;
        }
        question := ReplaceFirst(TreeToText(sentences[j].tree, " "), e.text, e.kind);
      }
      match GetAnswerStart(e.text, question, a.context, annotate, isStop)
      case None => o := Fail;
      case Some((cid, start)) =>
        o := if start == -1 then Skip else Emit(Draft(idPrefix, a.id, cid, question, e.text, start, e.kind));
    }

    /** The loop over the span answers of one tag. */
    method SpanAnswers(a: DocData.Article, clauses: seq<string>, mask: string, answers: seq<string>)
      returns (ok: bool)
      requires Valid()
      modifies data
      ensures Valid()
      ensures (data.data, ok) == Run(old(data.data), FlatMap(answers, SpanStep(a, clauses, mask, annotate, isStop)))
    {
      ghost var d0 := data.data;
      ghost var f := SpanStep(a, clauses, mask, annotate, isStop);
      for i := 0 to |answers|
        invariant Valid()
        invariant Run(d0, FlatMap(answers[..i], f)) == (data.data, true)
      {
        ghost var mid := data.data;
        var o := SpanAnswer(a, clauses, mask, answers[i]);
        ok := Record(o);
        RunLoopStep(d0, answers, f, i, mid, data.data, ok);
        if !ok {
          return;
        }
      }
      assert answers[..|answers|] == answers;
      ok := true;
    }

    /** The loop over the tags, in the order of `POS_TAGS`; `keys[t]` holds
        the spans of the `t`-th tag. */
    method TagAnswers(a: DocData.Article, clauses: seq<string>, doc: NlpDoc, keys: seq<seq<string>>)
      returns (ok: bool)
      requires Valid()
      requires |keys| == |PosTags| && forall t :: 0 <= t < |PosTags| ==> keys[t] == Keys(doc.sentences, PosTags[t])
      modifies data
      ensures Valid()
      ensures (data.data, ok) == Run(old(data.data), FlatMap(PosTags, TagStep(a, clauses, doc, annotate, isStop)))
    {
      ghost var d0 := data.data;
      ghost var f := TagStep(a, clauses, doc, annotate, isStop);
      for t := 0 to |PosTags|
        invariant Valid()
        invariant Run(d0, FlatMap(PosTags[..t], f)) == (data.data, true)
      {
        ghost var mid := data.data;
        var tag := PosTags[t];
        ok := SpanAnswers(a, clauses, PosReplace[tag], keys[t]);
        RunLoopStep(d0, PosTags, f, t, mid, data.data, ok);
        if !ok {
          return;
        }
      }
      assert PosTags[..|PosTags|] == PosTags;
      ok := true;
    }

    /** The loop over the named entities. */
    method EntityAnswers(a: DocData.Article, clauses: seq<string>, sentences: seq<Sentence>,
                         ents: seq<Entity>, idPrefix: string) returns (ok: bool)
      requires Valid()
      modifies data
      ensures Valid()
      ensures (data.data, ok) == Run(old(data.data), FlatMap(ents, EntityStep(a, clauses, sentences, idPrefix, annotate, isStop)))
    {
      ghost var d0 := data.data;
      ghost var f := EntityStep(a, clauses, sentences, idPrefix, annotate, isStop);
      for i := 0 to |ents|
        invariant Valid()
        invariant Run(d0, FlatMap(ents[..i], f)) == (data.data, true)
      {
        ghost var mid := data.data;
        var o := EntityAnswer(a, clauses, sentences, ents[i], idPrefix);
        ok := Record(o);
        RunLoopStep(d0, ents, f, i, mid, data.data, ok);
        if !ok {
          return;
        }
      }
      assert ents[..|ents|] == ents;
      ok := true;
    }

    /** The spans of every tag of a parsed summary. */
    method TagKeys(doc: NlpDoc) returns (keys: seq<seq<string>>)
      ensures |keys| == |PosTags| && forall t :: 0 <= t < |PosTags| ==> keys[t] == Keys(doc.sentences, PosTags[t])
    {
      keys := [];
      for t := 0 to |PosTags|
        invariant |keys| == t && forall u :: 0 <= u < t ==> keys[u] == Keys(doc.sentences, PosTags[u])
      {
        var ks := GetKeys(doc, PosTags[t]);
        keys := keys + [ks];
      }
    }

    /** The body of the loop over a summary's sentences: parse it, gather
        the spans of every tag and the clauses, then handle the spans tag by
        tag and the named entities last. */
    method Summary(a: DocData.Article, summary: string, idPrefix: string) returns (ok: bool)
      requires Valid()
      modifies data
      ensures Valid()
      ensures (data.data, ok) == Run(old(data.data), SummaryOutcomes(a, parse(summary), idPrefix, annotate, isStop))
    {
      var nlp := GetSummaryNlp(summary, parse, " ", " ");
      var doc := nlp.1;
      var keys := TagKeys(doc);
      GuardNeverSkips();
      var clauses := ExtractClauses(doc, 3, 5, " ");
      if |clauses| == 0 {
        return true;
      }
      ghost var d0 := data.data;
      ok := TagAnswers(a, clauses, doc, keys);
      ghost var d1 := data.data;
      RunAppend(d0, FlatMap(PosTags, TagStep(a, clauses, doc, annotate, isStop)),
                FlatMap(doc.ents, EntityStep(a, clauses, doc.sentences, idPrefix, annotate, isStop)));
      if !ok {
        return;
      }
      ok := EntityAnswers(a, clauses, doc.sentences, doc.ents, idPrefix);
    }

    /** The loop over an article's summary sentences. */
    method Article(a: DocData.Article, idPrefix: string) returns (ok: bool)
      requires Valid()
      modifies data
      ensures Valid()
      ensures (data.data, ok) == Run(old(data.data), FlatMap(a.summary, SummaryStep(a, idPrefix, parse, annotate, isStop)))
    {
      ghost var d0 := data.data;
      ghost var f := SummaryStep(a, idPrefix, parse, annotate, isStop);
      for i := 0 to |a.summary|
        invariant Valid()
        invariant Run(d0, FlatMap(a.summary[..i], f)) == (data.data, true)
      {
        ghost var mid := data.data;
        ok := Summary(a, a.summary[i], idPrefix);
        RunLoopStep(d0, a.summary, f, i, mid, data.data, ok);
        if !ok {
          return;
        }
      }
      assert a.summary[..|a.summary|] == a.summary;
      ok := true;
    }

    /** `__call__`: every article of the document, in insertion order. The
        result is false when an `IndexError` stopped the run, which leaves
        the pairs appended before it in place and happens only for an
        article without context segments. `RunSpec` and `EmittedSound` say
        what the run does to the dataset. */
    method Call(document: DocData.Document, idPrefix: string) returns (ok: bool)
      requires Valid() && document.Valid()
      modifies data
      ensures Valid()
      ensures (data.data, ok) == Run(old(data.data), DocumentOutcomes(Values(document.data), idPrefix, parse, annotate, isStop))
      ensures !ok ==> exists i :: 0 <= i < |Values(document.data)| && Values(document.data)[i].context == []
    {
      var articles := Values(document.data);
      ghost var d0 := data.data;
      ghost var f := ArticleStep(idPrefix, parse, annotate, isStop);
      ok := true;
      for i := 0 to |articles|
        invariant Valid()
        invariant Run(d0, FlatMap(articles[..i], f)) == (data.data, true)
      {
        ghost var mid := data.data;
        ok := Article(articles[i], idPrefix);
        RunLoopStep(d0, articles, f, i, mid, data.data, ok);
        if !ok {
          break;
        }
      }
      if ok {
        assert articles[..|articles|] == articles;
      }
      ghost var outs := DocumentOutcomes(articles, idPrefix, parse, annotate, isStop);
      RunFlag(d0, outs);
      if !ok {
        FailMeansEmptyContext(articles, idPrefix, parse, annotate, isStop);
      }
    }
  }
}
