/** The question-answer records (vietlegalqa/data/qa.py): a `QAPair` is one
    cloze question with its answer and where the answer starts in an
    article's context; a `QADataset` is a dictionary of pairs by id. */
module QAData {
  import opened Wrappers
  import opened PyStr
  import opened OrderedDict
  import opened DataUtils

  /** A question-answer pair. `kind` is the answer type (`type`). */
  datatype QAPair = QAPair(
    id: string, article: string, question: string, answer: string,
    start: int, kind: string, isImpossible: bool)
  {
    /** `to_list`: id, article, question, answer, start, type,
        is_impossible. */
    function ToList(): (r: seq<Value>)
      ensures |r| == |QAFields| && r[0] == Str(id)
    {
      [Str(id), Str(article), Str(question), Str(answer), Int(start), Str(kind), Bool(isImpossible)]
    }

    /** `to_dict`: each field under its name in `QA_FIELD`. */
    function ToDict(): (r: Dict<string, Value>)
      ensures Valid(r) && r.keys == QAFields
      ensures "id" in r.entries && r.entries["id"] == Str(id)
      ensures "article" in r.entries && r.entries["article"] == Str(article)
      ensures "question" in r.entries && r.entries["question"] == Str(question)
      ensures "answer" in r.entries && r.entries["answer"] == Str(answer)
      ensures "start" in r.entries && r.entries["start"] == Int(start)
      ensures "type" in r.entries && r.entries["type"] == Str(kind)
      ensures "is_impossible" in r.entries && r.entries["is_impossible"] == Bool(isImpossible)
    {
      var values := ToList();
      QAFieldsDistinct();
      ZipKeys(QAFields, values);
      ZipLookup(QAFields, values, 0);
      ZipLookup(QAFields, values, 1);
      ZipLookup(QAFields, values, 2);
      ZipLookup(QAFields, values, 3);
      ZipLookup(QAFields, values, 4);
      ZipLookup(QAFields, values, 5);
      ZipLookup(QAFields, values, 6);
      Zip(QAFields, values)
    }
  }

  /** The list form determines the pair: no two pairs give the same list. */
  lemma ToListInjective(a: QAPair, b: QAPair)
    ensures a.ToList() == b.ToList() ==> a == b
  {
    if a.ToList() == b.ToList() {
      assert a.ToList()[1] == b.ToList()[1] && a.ToList()[2] == b.ToList()[2];
      assert a.ToList()[3] == b.ToList()[3] && a.ToList()[4] == b.ToList()[4];
      assert a.ToList()[5] == b.ToList()[5] && a.ToList()[6] == b.ToList()[6];
    }
  }

  lemma QAFieldsDistinct()
    ensures NoRepeats(QAFields)
  {
    var f := QAFields;
    assert f == ["id", "article", "question", "answer", "start", "type", "is_impossible"];
  }

  function PairId(p: QAPair): string {
    p.id
  }

  /** `QAPair(...)`: every field as given, except that the type is stored
      upper-cased. */
  function MakeQAPair(id: string, article: string, question: string, answer: string,
                      start: int, kind: string, isImpossible: bool): (p: QAPair)
    ensures p.id == id && p.article == article && p.question == question && p.answer == answer
    ensures p.start == start && p.isImpossible == isImpossible
    ensures p.kind == Upper(kind)
    ensures |p.kind| == |kind| && Upper(p.kind) == p.kind
    ensures forall k :: 0 <= k < |kind| && !('a' <= kind[k] <= 'z') ==> p.kind[k] == kind[k]
  {
    UpperIdempotent(kind);
    QAPair(id, article, question, answer, start, Upper(kind), isImpossible)
  }

  /** Building a pair from a stored pair's own fields gives it back. */
  lemma MakeQAPairStored(p: QAPair)
    requires Upper(p.kind) == p.kind
    ensures MakeQAPair(p.id, p.article, p.question, p.answer, p.start, p.kind, p.isImpossible) == p
  {
  }

  // ---------------------------------------------------------------------
  // Comparisons
  // ---------------------------------------------------------------------

  /** The right-hand operand of a comparison: a pair or any other value. */
  datatype Operand = Pair(p: QAPair) | NotPair

  predicate StrLessEq(a: string, b: string) {
    StrLess(a, b) || a == b
  }

  /** `a == b`: against a pair, article, question, answer and start are all
      equal; against anything else, False. */
  predicate Eq(a: QAPair, b: Operand): (r: bool)
    ensures r <==> b.Pair? && a.(id := b.p.id, kind := b.p.kind, isImpossible := b.p.isImpossible) == b.p
  {
    b.Pair? && a.article == b.p.article && a.question == b.p.question
    && a.answer == b.p.answer && a.start == b.p.start
  }

  /** `a != b`: article, question, answer and start are ALL different;
      against anything else, False. */
  predicate Ne(a: QAPair, b: Operand): (r: bool)
    ensures r ==> b.Pair? && !Eq(a, b)
    ensures b.Pair? && !r ==>
      a.article == b.p.article || a.question == b.p.question || a.answer == b.p.answer || a.start == b.p.start
  {
    b.Pair? && a.article != b.p.article && a.question != b.p.question
    && a.answer != b.p.answer && a.start != b.p.start
  }

  /** `a < b`: the `if`/`elif` cascade answers True as soon as one field of
      `a` is smaller. */
  predicate Lt(a: QAPair, b: Operand): (r: bool)
    ensures r <==> b.Pair? && (StrLess(a.article, b.p.article) || StrLess(a.question, b.p.question)
                               || StrLess(a.answer, b.p.answer) || a.start < b.p.start)
  {
    b.Pair? &&
    (if StrLess(a.article, b.p.article) then true
     else if StrLess(a.question, b.p.question) then true
     else if StrLess(a.answer, b.p.answer) then true
     else a.start < b.p.start)
  }

  /** `a > b`: the same cascade with `>`. */
  predicate Gt(a: QAPair, b: Operand): (r: bool)
    ensures r <==> b.Pair? && (StrLess(b.p.article, a.article) || StrLess(b.p.question, a.question)
                               || StrLess(b.p.answer, a.answer) || a.start > b.p.start)
  {
    b.Pair? &&
    (if StrLess(b.p.article, a.article) then true
     else if StrLess(b.p.question, a.question) then true
     else if StrLess(b.p.answer, a.answer) then true
     else a.start > b.p.start)
  }

  /** `a <= b`: the same cascade with `<=`. */
  predicate Le(a: QAPair, b: Operand): (r: bool)
    ensures r <==> b.Pair? && (StrLessEq(a.article, b.p.article) || StrLessEq(a.question, b.p.question)
                               || StrLessEq(a.answer, b.p.answer) || a.start <= b.p.start)
  {
    b.Pair? &&
    (if StrLessEq(a.article, b.p.article) then true
     else if StrLessEq(a.question, b.p.question) then true
     else if StrLessEq(a.answer, b.p.answer) then true
     else a.start <= b.p.start)
  }

  /** `a >= b`: the same cascade with `>=`. */
  predicate Ge(a: QAPair, b: Operand): (r: bool)
    ensures r <==> b.Pair? && (StrLessEq(b.p.article, a.article) || StrLessEq(b.p.question, a.question)
                               || StrLessEq(b.p.answer, a.answer) || a.start >= b.p.start)
  {
    b.Pair? &&
    (if StrLessEq(b.p.article, a.article) then true
     else if StrLessEq(b.p.question, a.question) then true
     else if StrLessEq(b.p.answer, a.answer) then true
     else a.start >= b.p.start)
  }

  /** `__cmp__`: 0 when equal, 1 when greater, -1 otherwise; against a
      value that is not a pair the method falls off its end and gives
      `None`. */
  function Cmp(a: QAPair, b: Operand): (r: Option<int>)
    ensures r.Some? <==> b.Pair?
    ensures r == Some(0) <==> Eq(a, b)
    ensures r == Some(1) <==> !Eq(a, b) && Gt(a, b)
    ensures r == Some(-1) <==> b.Pair? && !Eq(a, b) && !Gt(a, b)
  {
    if b.NotPair? then None
    else if Eq(a, b) then Some(0)
    else if Gt(a, b) then Some(1)
    else Some(-1)
  }

  /** Equality looks only at article, question, answer and start: pairs
      that differ in id, type or impossibility flag are equal. */
  lemma EqIgnoresIdKindFlag(a: QAPair, id: string, kind: string, flag: bool)
    ensures Eq(a, Pair(a.(id := id, kind := kind, isImpossible := flag)))
    ensures Cmp(a, Pair(a.(id := id, kind := kind, isImpossible := flag))) == Some(0)
  {
  }

  /** Equality is an equivalence on pairs, and no pair equals a value of
      another type. */
  lemma EqEquivalence(a: QAPair, b: QAPair, c: QAPair)
    ensures Eq(a, Pair(a))
    ensures Eq(a, Pair(b)) ==> Eq(b, Pair(a))
    ensures Eq(a, Pair(b)) && Eq(b, Pair(c)) ==> Eq(a, Pair(c))
    ensures !Eq(a, NotPair) && !Ne(a, NotPair)
  {
  }

  /** `!=` is not the negation of `==`: two pairs that differ only in their
      article are neither equal nor unequal. */
  lemma NeIsNotNotEq()
    ensures
      var a := QAPair("1", "x", "q", "ans", 0, "NUM", false);
      var b := QAPair("1", "y", "q", "ans", 0, "NUM", false);
      !Eq(a, Pair(b)) && !Ne(a, Pair(b))
  {
  }

  /** Unequal pairs are not necessarily `!=`; but `!=` pairs are never
      equal. */
  lemma NeImpliesNotEq(a: QAPair, b: Operand)
    ensures Ne(a, b) ==> !Eq(a, b)
  {
  }

  /** `<` is irreflexive, and `>` is `<` with its operands swapped. */
  lemma LtIrreflexiveGtFlipped(a: QAPair, b: QAPair)
    ensures !Lt(a, Pair(a)) && !Gt(a, Pair(a))
    ensures Gt(a, Pair(b)) <==> Lt(b, Pair(a))
    ensures Ge(a, Pair(b)) <==> Le(b, Pair(a))
  {
    StrLessAsymmetric(a.article, a.article);
    StrLessAsymmetric(a.question, a.question);
    StrLessAsymmetric(a.answer, a.answer);
  }

  /** `<` is not an order: with the article smaller one way and the
      question smaller the other, each pair is less than the other, and
      `__cmp__` calls each greater than the other. */
  lemma LtBothWays()
    ensures
      var a := QAPair("1", "a", "b", "ans", 0, "NUM", false);
      var b := QAPair("2", "b", "a", "ans", 0, "NUM", false);
      Lt(a, Pair(b)) && Lt(b, Pair(a)) && Cmp(a, Pair(b)) == Some(1) && Cmp(b, Pair(a)) == Some(1)
  {
    assert StrLess("a", "b");
    assert StrLess("b"[1..], "a"[1..]) == false;
    assert !StrLess("b", "a");
  }

  /** `<=` holds in at least one direction for every two pairs, and always
      from a pair to itself. */
  lemma LeTotal(a: QAPair, b: QAPair)
    ensures Le(a, Pair(a))
    ensures Le(a, Pair(b)) || Le(b, Pair(a))
  {
    if a.article != b.article {
      StrLessTotal(a.article, b.article);
    }
  }

  // ---------------------------------------------------------------------
  // `QADataset`
  // ---------------------------------------------------------------------

  /** One record of the list form, before the type is upper-cased. */
  function FromRecord(r: QAPair): QAPair {
    MakeQAPair(r.id, r.article, r.question, r.answer, r.start, r.kind, r.isImpossible)
  }

  /** What the dataset is built from: a list of records, a dictionary of
      columns, or nothing. */
  datatype Source =
    | Rows(rows: seq<QAPair>)
    | Columns(ids: seq<string>, articles: seq<string>, questions: seq<string>, answers: seq<string>,
              starts: seq<int>, kinds: seq<string>, flags: seq<bool>)
    | NoData

  /** The columns are long enough to index every row the id column has;
      otherwise the constructor raises an `IndexError`. */
  predicate ColumnsComplete(src: Source) {
    src.Columns? ==>
      var n := |src.ids|;
      n <= |src.articles| && n <= |src.questions| && n <= |src.answers|
      && n <= |src.starts| && n <= |src.kinds| && n <= |src.flags|
  }

  /** The records a source holds, in order; column rows are read across. */
  function Records(src: Source): (rs: seq<QAPair>)
    requires ColumnsComplete(src)
    ensures src.Rows? ==> rs == src.rows
    ensures src.Columns? ==> |rs| == |src.ids| && forall i :: 0 <= i < |rs| ==>
      rs[i] == QAPair(src.ids[i], src.articles[i], src.questions[i], src.answers[i],
                      src.starts[i], src.kinds[i], src.flags[i])
    ensures src.NoData? ==> rs == []
  {
    match src
    case Rows(rows) => rows
    case Columns(ids, articles, questions, answers, starts, kinds, flags) =>
      seq(|ids|, i requires 0 <= i < |ids| =>
        QAPair(ids[i], articles[i], questions[i], answers[i], starts[i], kinds[i], flags[i]))
    case NoData => []
  }

  /** The stored pairs of a list of records, in order. */
  function Normalized(rs: seq<QAPair>): (ps: seq<QAPair>)
    ensures |ps| == |rs|
    ensures forall i :: 0 <= i < |rs| ==> ps[i] == FromRecord(rs[i]) && ps[i].id == rs[i].id
  {
    seq(|rs|, i requires 0 <= i < |rs| => FromRecord(rs[i]))
  }

  /** Storing the normalised records by id keeps, under each id, the last
      record with that id. */
  lemma LastRecordWins(rs: seq<QAPair>)
    ensures var d := PutEach(Empty(), Normalized(rs), PairId);
      forall i :: 0 <= i < |rs| && (forall j :: i < j < |rs| ==> rs[j].id != rs[i].id) ==>
        rs[i].id in d.entries && d.entries[rs[i].id] == FromRecord(rs[i])
  {
    var ps := Normalized(rs);
    forall i | 0 <= i < |rs| && (forall j :: i < j < |rs| ==> rs[j].id != rs[i].id)
      ensures rs[i].id in PutEach(Empty(), ps, PairId).entries
      ensures PutEach(Empty(), ps, PairId).entries[rs[i].id] == FromRecord(rs[i])
    {
      PutEachLast(Empty(), ps, PairId, i);
    }
  }

  /** A collection of pairs by id, in insertion order. */
  class QADataset {
    var data: Dict<string, QAPair>

    ghost predicate Valid()
      reads this
    {
      OrderedDict.Valid(data)
    }

    /** `QADataset(data)`: both the list and the column form store each
        record under its id, with its type upper-cased; a later record with
        the same id replaces the earlier one in its place. */
    constructor (src: Source)
      requires ColumnsComplete(src)
      ensures Valid()
      ensures data == PutEach(Empty(), Normalized(Records(src)), PairId)
      ensures forall i :: 0 <= i < |Records(src)| && (forall j :: i < j < |Records(src)| ==> Records(src)[j].id != Records(src)[i].id) ==>
        Records(src)[i].id in data.entries && data.entries[Records(src)[i].id] == FromRecord(Records(src)[i])
    {
      var rs := Records(src);
      ghost var ps := Normalized(rs);
      var d: Dict<string, QAPair> := Empty();
      for i := 0 to |rs|
        invariant d == PutEach(Empty(), ps[..i], PairId)
      {
        assert ps[..i + 1][..i] == ps[..i];
        d := Put(d, rs[i].id, FromRecord(rs[i]));
      }
      assert ps[..|ps|] == ps;
      PutEachValid(Empty(), ps, PairId);
      LastRecordWins(rs);
      data := d;
    }

    /** `len(dataset)`. */
    function Len(): (r: nat)
      reads this
      ensures Valid() ==> r == |data.entries|
    {
      LenCountsEntries(data);
      |data.keys|
    }

    /** `append`: the pair is stored under its id and nothing else
        changes. */
    method Append(e: QAPair)
      requires Valid()
      modifies this
      ensures Valid()
      ensures data == Put(old(data), e.id, e)
      ensures e.id in data.entries && data.entries[e.id] == e
      ensures forall k :: k != e.id ==> (k in data.entries <==> k in old(data.entries))
      ensures forall k :: k != e.id && k in old(data.entries) ==> data.entries[k] == old(data.entries)[k]
      ensures Len() == old(Len()) + (if e.id in old(data.entries) then 0 else 1)
    {
      PutLookup(data, e.id, e, e.id);
      forall k | k != e.id
        ensures (k in Put(data, e.id, e).entries <==> k in data.entries)
        ensures k in data.entries ==> Put(data, e.id, e).entries[k] == data.entries[k]
      {
        PutLookup(data, e.id, e, k);
      }
      data := Put(data, e.id, e);
    }

    /** `extend`: `append` of each pair in turn. */
    method Extend(es: seq<QAPair>)
      requires Valid()
      modifies this
      ensures Valid()
      ensures data == PutEach(old(data), es, PairId)
    {
      ghost var start := data;
      for i := 0 to |es|
        invariant data == PutEach(start, es[..i], PairId)
        invariant Valid()
      {
        assert es[..i + 1][..i] == es[..i];
        data := Put(data, es[i].id, es[i]);
      }
      assert es[..|es|] == es;
    }
  }
}
