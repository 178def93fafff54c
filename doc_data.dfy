/** The article records (vietlegalqa/data/doc.py): an `Article` is a legal
    text with its summary sentences and context segments; a `Document` is a
    dictionary of articles. */
module DocData {
  import opened OrderedDict
  import opened DataUtils

  /** An article: id, title, summary sentences and context segments. */
  datatype Article = Article(id: string, title: string, summary: seq<string>, context: seq<string>) {
    /** `to_list`: the fields in the order id, title, summary, context. */
    function ToList(): (r: seq<Value>)
      ensures |r| == |DocFields| && r[0] == Str(id)
    {
      [Str(id), Str(title), Strs(summary), Strs(context)]
    }

    /** `to_dict`: each field under its name in `DOC_FIELD`. */
    function ToDict(): (r: Dict<string, Value>)
      ensures Valid(r) && r.keys == DocFields
      ensures r.entries["id"] == Str(id) && r.entries["title"] == Str(title)
      ensures r.entries["summary"] == Strs(summary) && r.entries["context"] == Strs(context)
    {
      var values := ToList();
      assert NoRepeats(DocFields);
      ZipKeys(DocFields, values);
      ZipLookup(DocFields, values, 0);
      ZipLookup(DocFields, values, 1);
      ZipLookup(DocFields, values, 2);
      ZipLookup(DocFields, values, 3);
      Zip(DocFields, values)
    }
  }

  /** The list form determines the article: no two articles give the same
      list. */
  lemma ArticleToListInjective(a: Article, b: Article)
    ensures a.ToList() == b.ToList() ==> a == b
  {
    if a.ToList() == b.ToList() {
      assert a.ToList()[1] == b.ToList()[1];
      assert a.ToList()[2] == b.ToList()[2] && a.ToList()[3] == b.ToList()[3];
    }
  }

  /** A document's keys: the list form keys articles by their id, the
      column form by their row number, and Python's dict holds both. */
  datatype Key = ById(id: string) | ByRow(row: nat)

  function ArticleKey(a: Article): Key {
    ById(a.id)
  }

  /** What the document is built from: a list of records, a dictionary of
      columns, or nothing. */
  datatype Source =
    | Rows(rows: seq<Article>)
    | Columns(ids: seq<string>, titles: seq<string>, summaries: seq<seq<string>>, contexts: seq<seq<string>>)
    | NoData

  /** The columns are long enough to index every row the id column has;
      otherwise the constructor raises an `IndexError`. */
  predicate ColumnsComplete(src: Source) {
    src.Columns? ==>
      |src.ids| <= |src.titles| && |src.ids| <= |src.summaries| && |src.ids| <= |src.contexts|
  }

  function ColumnRow(src: Source, i: nat): Article
    requires src.Columns? && ColumnsComplete(src) && i < |src.ids|
  {
    Article(src.ids[i], src.titles[i], src.summaries[i], src.contexts[i])
  }

  /** A collection of articles in insertion order. */
  class Document {
    var data: Dict<Key, Article>

    ghost predicate Valid()
      reads this
    {
      OrderedDict.Valid(data)
    }

    /** `Document(data)`: a list is stored under each record's id, a later
        record with the same id replacing the earlier one in its place; a
        column dictionary is stored under the row numbers 0, 1, ...; no data
        gives an empty document. */
    constructor (src: Source)
      requires ColumnsComplete(src)
      ensures Valid()
      ensures src.Rows? ==> data == PutEach(Empty(), src.rows, ArticleKey)
      ensures src.Rows? ==> forall i :: 0 <= i < |src.rows| && (forall j :: i < j < |src.rows| ==> src.rows[j].id != src.rows[i].id) ==>
        ById(src.rows[i].id) in data.entries && data.entries[ById(src.rows[i].id)] == src.rows[i]
      ensures src.Columns? ==> |data.keys| == |src.ids|
      ensures src.Columns? ==> forall i :: 0 <= i < |src.ids| ==>
        data.keys[i] == ByRow(i) && data.entries[ByRow(i)] == ColumnRow(src, i)
      ensures src.NoData? ==> data == Empty()
    {
      var d: Dict<Key, Article> := Empty();
      match src {
        case Rows(rows) =>
          for i := 0 to |rows|
            invariant d == PutEach(Empty(), rows[..i], ArticleKey)
          {
            assert rows[..i + 1][..i] == rows[..i];
            d := Put(d, ById(rows[i].id), rows[i]);
          }
          assert rows[..|rows|] == rows;
          PutEachValid(Empty(), rows, ArticleKey);
          forall i | 0 <= i < |rows| && (forall j :: i < j < |rows| ==> rows[j].id != rows[i].id)
            ensures ById(rows[i].id) in d.entries && d.entries[ById(rows[i].id)] == rows[i]
          {
            PutEachLast(Empty(), rows, ArticleKey, i);
          }
        case Columns(ids, _, _, _) =>
          for i := 0 to |ids|
            invariant OrderedDict.Valid(d) && |d.keys| == i
            invariant forall j :: 0 <= j < i ==> d.keys[j] == ByRow(j) && d.entries[ByRow(j)] == ColumnRow(src, j)
          {
            RowsBelow(d, i);
            PutFreshRow(d, i, ColumnRow(src, i));
            d := Put(d, ByRow(i), ColumnRow(src, i));
          }
        case NoData =>
      }
      data := d;
    }

    /** `append`: the article is stored under its id and nothing else
        changes. */
    method Append(e: Article)
      requires Valid()
      modifies this
      ensures Valid()
      ensures data == Put(old(data), ById(e.id), e)
      ensures ById(e.id) in data.entries && data.entries[ById(e.id)] == e
      ensures forall k :: k != ById(e.id) ==> (k in data.entries <==> k in old(data.entries))
      ensures forall k :: k != ById(e.id) && k in old(data.entries) ==> data.entries[k] == old(data.entries)[k]
    {
      PutLookup(data, ById(e.id), e, ById(e.id));
      forall k | k != ById(e.id)
        ensures (k in Put(data, ById(e.id), e).entries <==> k in data.entries)
        ensures k in data.entries ==> Put(data, ById(e.id), e).entries[k] == data.entries[k]
      {
        PutLookup(data, ById(e.id), e, k);
      }
      data := Put(data, ById(e.id), e);
    }

    /** `extend`: `append` of each article in turn. */
    method Extend(es: seq<Article>)
      requires Valid()
      modifies this
      ensures Valid()
      ensures data == PutEach(old(data), es, ArticleKey)
    {
      ghost var start := data;
      for i := 0 to |es|
        invariant data == PutEach(start, es[..i], ArticleKey)
        invariant Valid()
      {
        assert es[..i + 1][..i] == es[..i];
        data := Put(data, ById(es[i].id), es[i]);
      }
      assert es[..|es|] == es;
    }
  }

  /** In a dictionary keyed by the rows below `n`, row `n` is absent. */
  lemma RowsBelow(d: Dict<Key, Article>, n: nat)
    requires OrderedDict.Valid(d) && |d.keys| == n
    requires forall j :: 0 <= j < n ==> d.keys[j] == ByRow(j)
    ensures ByRow(n) !in d.entries
  {
  }

  /** Adding a fresh row keeps every earlier row and puts the new one last. */
  lemma PutFreshRow(d: Dict<Key, Article>, n: nat, a: Article)
    requires OrderedDict.Valid(d) && |d.keys| == n && ByRow(n) !in d.entries
    ensures Put(d, ByRow(n), a).keys == d.keys + [ByRow(n)]
    ensures Put(d, ByRow(n), a).entries[ByRow(n)] == a
    ensures forall k :: k in d.entries ==> Put(d, ByRow(n), a).entries[k] == d.entries[k]
  {
  }
}
