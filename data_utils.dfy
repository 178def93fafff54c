/** The in-memory records of the dataset package (vietlegalqa/data/utils.py):
    the field-name lists, the file-name helper, the base record `Entry` and
    the base collection `Dataset`, a dictionary from id to entry. */
module DataUtils {
  import opened Wrappers
  import opened PyStr
  import opened OrderedDict

  /** `FIELD`, `DOC_FIELD` and `QA_FIELD`: the names `to_dict` gives the
      values of `to_list`, in order. */
  const Fields: seq<string> := ["id"]
  const DocFields: seq<string> := ["id", "title", "summary", "context"]
  const QAFields: seq<string> := ["id", "article", "question", "answer", "start", "type", "is_impossible"]

  /** A field value, as the records hold them. */
  datatype Value = Str(s: string) | Strs(ss: seq<string>) | Int(i: int) | Bool(b: bool)

  /** `{fields[idx]: v for idx, v in enumerate(values)}`. */
  function Zip(fields: seq<string>, values: seq<Value>): Dict<string, Value>
    requires |values| <= |fields|
  {
    if values == [] then Empty()
    else
      var n := |values| - 1;
      Put(Zip(fields, values[..n]), fields[n], values[n])
  }

  predicate NoRepeats(fields: seq<string>) {
    forall i, j :: 0 <= i < j < |fields| ==> fields[i] != fields[j]
  }

  lemma NotInPrefix(fields: seq<string>, n: nat)
    requires NoRepeats(fields) && n < |fields|
    ensures fields[n] !in fields[..n]
    ensures fields[..n] + [fields[n]] == fields[..n + 1]
  {
  }

  /** With distinct field names, the dictionary's keys are the fields, in
      order. */
  lemma {:induction false} ZipKeys(fields: seq<string>, values: seq<Value>)
    requires |values| <= |fields| && NoRepeats(fields)
    ensures Valid(Zip(fields, values))
    ensures Zip(fields, values).keys == fields[..|values|]
  {
    if values != [] {
      var n := |values| - 1;
      ZipKeys(fields, values[..n]);
      NotInPrefix(fields, n);
    }
  }

  /** Each field holds the value at its position. */
  lemma {:induction false} ZipLookup(fields: seq<string>, values: seq<Value>, i: nat)
    requires |values| <= |fields| && NoRepeats(fields) && i < |values|
    ensures fields[i] in Zip(fields, values).entries
    ensures Zip(fields, values).entries[fields[i]] == values[i]
  {
    var n := |values| - 1;
    var z := Zip(fields, values[..n]);
    PutLookup(z, fields[n], values[n], fields[i]);
    if i < n {
      ZipLookup(fields, values[..n], i);
    }
  }

  // ---------------------------------------------------------------------
  // `get_extension`
  // ---------------------------------------------------------------------

  /** `get_extension(filename, type)`: the stripped name, with ".json" or
      ".pkl" added for the two known types unless it is already there. */
  function GetExtension(filename: string, kind: string): (r: string)
    ensures kind == "json" ==> EndsWith(r, ".json")
    ensures kind == "pickle" ==> EndsWith(r, ".pkl")
    ensures kind != "json" && kind != "pickle" ==> r == Strip(filename)
    ensures kind == "json" && EndsWith(Strip(filename), ".json") ==> r == Strip(filename)
    ensures kind == "json" && !EndsWith(Strip(filename), ".json") ==> r == Strip(filename) + ".json"
    ensures kind == "pickle" && EndsWith(Strip(filename), ".pkl") ==> r == Strip(filename)
    ensures kind == "pickle" && !EndsWith(Strip(filename), ".pkl") ==> r == Strip(filename) + ".pkl"
    ensures |Strip(filename)| <= |r| && r[..|Strip(filename)|] == Strip(filename)
  {
    var name := Strip(filename);
    if kind == "json" then
      (if EndsWith(name, ".json") then name else EndsWithAppended(name, ".json"); name + ".json")
    else if kind == "pickle" then
      (if EndsWith(name, ".pkl") then name else EndsWithAppended(name, ".pkl"); name + ".pkl")
    else name
  }

  /** A stripped name with a suffix that ends in a letter is its own strip. */
  lemma StrippedWithSuffix(name: string, suffix: string)
    requires name == [] || (!IsSpace(name[0]) && !IsSpace(name[|name| - 1]))
    requires |suffix| > 1 && suffix[0] == '.' && 'a' <= suffix[|suffix| - 1] <= 'z'
    ensures Strip(name + suffix) == name + suffix
  {
    var s := name + suffix;
    assert s[|s| - 1] == suffix[|suffix| - 1];
    assert s[0] == if name == [] then '.' else name[0];
    StripTrimmed(s);
  }

  /** Applying the helper twice is applying it once. */
  lemma GetExtensionIdempotent(filename: string, kind: string)
    ensures GetExtension(GetExtension(filename, kind), kind) == GetExtension(filename, kind)
  {
    var name := Strip(filename);
    StripIdempotent(filename);
    if kind == "json" && !EndsWith(name, ".json") {
      StrippedWithSuffix(name, ".json");
    } else if kind == "pickle" && !EndsWith(name, ".pkl") {
      StrippedWithSuffix(name, ".pkl");
    }
  }

  /** The two examples of the helper's documentation. */
  lemma GetExtensionExamples()
    ensures GetExtension("abc", "json") == "abc.json"
    ensures GetExtension("abc.pkl", "pickle") == "abc.pkl"
  {
    StripTrimmed("abc");
    StripTrimmed("abc.pkl");
    assert "abc.pkl"[7 - 4..] == ".pkl";
    assert !EndsWith("abc", ".json");
  }

  // ---------------------------------------------------------------------
  // `Entry`
  // ---------------------------------------------------------------------

  /** The base record: only an id. */
  datatype Entry = Entry(id: string) {
    /** `to_list`. */
    function ToList(): (r: seq<Value>)
      ensures |r| == |Fields| && r[0] == Str(id)
    {
      [Str(id)]
    }

    /** `to_dict`: `{"id": id}`. */
    function ToDict(): (r: Dict<string, Value>)
      ensures Valid(r) && r.keys == Fields && r.entries["id"] == Str(id)
    {
      ZipKeys(Fields, ToList());
      ZipLookup(Fields, ToList(), 0);
      Zip(Fields, ToList())
    }
  }

  function EntryId(e: Entry): string {
    e.id
  }

  // ---------------------------------------------------------------------
  // `Dataset`
  // ---------------------------------------------------------------------

  /** The base collection: entries under their ids, in insertion order. */
  class Dataset {
    var data: Dict<string, Entry>

    ghost predicate Valid()
      reads this
    {
      OrderedDict.Valid(data)
    }

    constructor ()
      ensures Valid() && data == Empty()
    {
      data := Empty();
    }

    /** `len(dataset)`: the number of distinct ids. */
    function Len(): (r: nat)
      reads this
      ensures Valid() ==> r == |data.entries|
    {
      LenCountsEntries(data);
      |data.keys|
    }

    /** `dataset[i]` for an int: the `i`-th entry in insertion order, with
        Python's negative indices; out of range is an `IndexError`. */
    function GetItemInt(i: int): (r: Result<Entry, string>)
      reads this
      requires Valid()
      ensures r.Success? <==> -(Len() as int) <= i < Len()
      ensures 0 <= i < Len() ==> r == Success(data.entries[data.keys[i]])
      ensures -(Len() as int) <= i < 0 ==> r == Success(data.entries[data.keys[Len() + i]])
    {
      var values := Values(data);
      if 0 <= i < |values| then Success(values[i])
      else if -|values| <= i < 0 then Success(values[|values| + i])
      else Failure("IndexError")
    }

    /** `dataset[key]` for a str: `self.data.get(key, Entry())` builds its
        default before the lookup, and `Entry()` lacks its required `id`, so
        every string lookup raises a `TypeError`, whether the key is present
        or not. */
    function GetItemStr(key: string): (r: Result<Entry, string>)
      reads this
      ensures r == Failure("TypeError")
    {
      Failure("TypeError")
    }

    /** `append`: the entry is stored under its id, replacing an entry with
        the same id in that entry's place. */
    method Append(e: Entry)
      requires Valid()
      modifies this
      ensures Valid()
      ensures data == Put(old(data), e.id, e)
      ensures e.id in data.entries && data.entries[e.id] == e
      ensures Len() == old(Len()) + (if e.id in old(data.entries) then 0 else 1)
    {
      PutLookup(data, e.id, e, e.id);
      data := Put(data, e.id, e);
    }

    /** `extend`: `append` for each entry in turn. */
    method Extend(es: seq<Entry>)
      requires Valid()
      modifies this
      ensures Valid()
      ensures data == PutEach(old(data), es, EntryId)
    {
      ghost var start := data;
      for i := 0 to |es|
        invariant data == PutEach(start, es[..i], EntryId)
        invariant Valid()
      {
        assert es[..i + 1][..i] == es[..i];
        data := Put(data, es[i].id, es[i]);
      }
      assert es[..|es|] == es;
    }

    /** `to_list`: each entry's dictionary, in insertion order. */
    function ToList(): (r: seq<Dict<string, Value>>)
      reads this
      requires Valid()
      ensures |r| == Len()
      ensures forall i :: 0 <= i < |r| ==> r[i] == data.entries[data.keys[i]].ToDict()
    {
      var values := Values(data);
      seq(|values|, i requires 0 <= i < |values| => values[i].ToDict())
    }
  }
}
