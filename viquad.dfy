/** The answer-type and cloze helpers of the ViQuAD converter
    (viquad_to_cloze.py): the tag a parse tree's left edge carries, the
    masking label of the most frequent tag over a text's sentences, and the
    cloze sentence built around an answer. The parser and the tokenizer are
    not modelled: their trees and sentences are inputs. */
module ViquadCloze {
  import opened Wrappers
  import opened PyStr
  import opened ParseTree

  /** `POS_TAGS` and `POS_REPLACE` of the converter's constants. */
  const PosTags: seq<string> := ["NUM", "NP", "AP", "VP", "S"]
  const PosReplace: map<string, string> :=
    map["NUM" := "NUMBER", "NP" := "NOUNPHRASE", "AP" := "ADVPHRASE", "VP" := "VERBPHARSE", "S" := "CLAUSE"]

  /** The label `get_pos` falls back to when no sentence has a tag. */
  const Miscellaneous: string := "MISCELLANEOUS"

  // ---------------------------------------------------------------------
  // `get_labels`
  // ---------------------------------------------------------------------

  /** `get_labels(node)`: nothing for a leaf, the node's own label when it is
      a tag, and otherwise whatever its FIRST child gives (the loop returns
      on its first turn). */
  function GetLabels(t: Tree): (r: Option<string>)
    ensures r.Some? ==> r.value in PosTags
    ensures t.IsLeaf() ==> r.None?
  {
    if t.IsLeaf() then None
    else if t.name in PosTags then Some(t.name)
    else GetLabels(t.children[0])
  }

  /** The internal nodes on the path from `t` down through first children. */
  function LeftEdge(t: Tree): (r: seq<Tree>)
    ensures forall i :: 0 <= i < |r| ==> !r[i].IsLeaf()
  {
    if t.IsLeaf() then [] else [t] + LeftEdge(t.children[0])
  }

  /** The label of the first node of `nodes` that carries a tag. */
  function FirstTag(nodes: seq<Tree>): (r: Option<string>)
    ensures r.None? <==> forall i :: 0 <= i < |nodes| ==> nodes[i].name !in PosTags
    ensures r.Some? ==> exists i :: 0 <= i < |nodes| && nodes[i].name == r.value
                                    && forall j :: 0 <= j < i ==> nodes[j].name !in PosTags
  {
    if nodes == [] then None
    else if nodes[0].name in PosTags then Some(nodes[0].name)
    else
      var r := FirstTag(nodes[1..]);
      assert forall i :: 1 <= i < |nodes| ==> nodes[i] == nodes[1..][i - 1];
      r
  }

  /** `get_labels` finds the first tag on the left edge: None when no node
      of the left edge is tagged, and otherwise the label of the topmost
      tagged node there. */
  lemma {:induction false} GetLabelsLeftEdge(t: Tree)
    ensures GetLabels(t) == FirstTag(LeftEdge(t))
  {
    if !t.IsLeaf() {
      var c := t.children[0];
      GetLabelsLeftEdge(c);
      assert ([t] + LeftEdge(c))[1..] == LeftEdge(c);
    }
  }

  /** A tag below the second child of an untagged root goes unseen. */
  lemma OnlyFirstChildExplored()
    ensures GetLabels(Node("ROOT", [Node("w", []), Node("NP", [Node("x", [])])])) == None
  {
    var w := Node("w", []);
    assert w.IsLeaf();
    assert "ROOT" !in PosTags;
  }

  // ---------------------------------------------------------------------
  // `statistics.mode`
  // ---------------------------------------------------------------------

  /** How often `x` occurs in `xs`. */
  function Count(xs: seq<string>, x: string): nat {
    multiset(xs)[x]
  }

  /** The index, among the first `n`, of the first element whose count is
      the largest there. */
  function BestIndex(xs: seq<string>, n: nat): (k: nat)
    requires 1 <= n <= |xs|
    ensures k < n
    ensures forall j :: 0 <= j < n ==> Count(xs, xs[j]) <= Count(xs, xs[k])
    ensures forall j :: 0 <= j < k ==> Count(xs, xs[j]) < Count(xs, xs[k])
  {
    if n == 1 then 0
    else
      var k := BestIndex(xs, n - 1);
      if Count(xs, xs[n - 1]) > Count(xs, xs[k]) then n - 1 else k
  }

  /** `mode(xs)`: a most frequent element, the first one met when several
      are equally frequent. */
  function Mode(xs: seq<string>): (r: string)
    requires xs != []
    ensures r in xs
    ensures forall y :: y in xs ==> Count(xs, y) <= Count(xs, r)
    ensures exists k :: 0 <= k < |xs| && xs[k] == r && forall j :: 0 <= j < k ==> Count(xs, xs[j]) < Count(xs, r)
  {
    var k := BestIndex(xs, |xs|);
    assert forall y :: y in xs ==> exists j :: 0 <= j < |xs| && xs[j] == y;
    xs[k]
  }

  /** Those three properties determine the mode: any element that is most
      frequent and met before every other element as frequent is it. */
  lemma ModeUnique(xs: seq<string>, r: string, k: nat)
    requires k < |xs| && xs[k] == r
    requires forall y :: y in xs ==> Count(xs, y) <= Count(xs, r)
    requires forall j :: 0 <= j < k ==> Count(xs, xs[j]) < Count(xs, r)
    ensures r == Mode(xs)
  {
    var m := Mode(xs);
    var k' :| 0 <= k' < |xs| && xs[k'] == m && forall j :: 0 <= j < k' ==> Count(xs, xs[j]) < Count(xs, m);
    assert Count(xs, r) == Count(xs, m);
  }

  // ---------------------------------------------------------------------
  // `get_pos`
  // ---------------------------------------------------------------------

  /** The labels of the sentences that have one, in sentence order (the
      `pos` list). */
  function Labels(trees: seq<Tree>): (r: seq<string>)
    ensures forall i :: 0 <= i < |r| ==> r[i] in PosTags
  {
    if trees == [] then []
    else
      var n := |trees| - 1;
      match GetLabels(trees[n])
      case None => Labels(trees[..n])
      case Some(l) => Labels(trees[..n]) + [l]
  }

  /** The label of every sentence that has one is in the list. */
  lemma {:induction false} LabelsHas(trees: seq<Tree>, i: nat)
    requires i < |trees| && GetLabels(trees[i]).Some?
    ensures GetLabels(trees[i]).value in Labels(trees)
  {
    var n := |trees| - 1;
    if i < n {
      LabelsHas(trees[..n], i);
      assert trees[..n][i] == trees[i];
    }
  }

  /** Every label in the list is the label of some sentence. */
  lemma {:induction false} LabelsFrom(trees: seq<Tree>, l: string)
    requires l in Labels(trees)
    ensures exists i :: 0 <= i < |trees| && GetLabels(trees[i]) == Some(l)
  {
    var n := |trees| - 1;
    if GetLabels(trees[n]) != Some(l) {
      LabelsFrom(trees[..n], l);
      var i :| 0 <= i < n && GetLabels(trees[..n][i]) == Some(l);
      assert trees[..n][i] == trees[i];
    }
  }

  /** What `get_pos` answers for sentences with these parse trees. */
  function PosOf(trees: seq<Tree>): string {
    var pos := Labels(trees);
    if pos == [] then Miscellaneous else PosReplace[Mode(pos)]
  }

  /** `get_pos(text)` over the parse trees of the text's sentences. */
  method GetPos(trees: seq<Tree>) returns (r: string)
    ensures r == PosOf(trees)
  {
    var pos: seq<string> := [];
    for i := 0 to |trees|
      invariant pos == Labels(trees[..i])
    {
      assert trees[..i + 1][..i] == trees[..i];
      var tag := GetLabels(trees[i]);
      if tag.Some? {
        pos := pos + [tag.value];
      }
    }
    assert trees[..|trees|] == trees;
    if |pos| == 0 {
      r := Miscellaneous;
    } else {
      r := PosReplace[Mode(pos)];
    }
  }

  /** `get_pos` falls back to "MISCELLANEOUS" exactly when no sentence has a
      tag on its left edge; otherwise it masks with the label of a most
      frequent tag, the first one met among equally frequent tags. */
  lemma GetPosSpec(trees: seq<Tree>)
    ensures PosOf(trees) == Miscellaneous <==> forall i :: 0 <= i < |trees| ==> GetLabels(trees[i]).None?
    ensures PosOf(trees) != Miscellaneous ==>
      exists i :: 0 <= i < |trees| && GetLabels(trees[i]).Some? && PosOf(trees) == PosReplace[GetLabels(trees[i]).value]
        && GetLabels(trees[i]).value == Mode(Labels(trees))
  {
    var pos := Labels(trees);
    if pos == [] {
      forall i | 0 <= i < |trees| ensures GetLabels(trees[i]).None? {
        if GetLabels(trees[i]).Some? {
          LabelsHas(trees, i);
        }
      }
    } else {
      var m := Mode(pos);
      LabelsFrom(trees, m);
      assert PosReplace[m] != Miscellaneous;
    }
  }

  // ---------------------------------------------------------------------
  // `get_cloze`
  // ---------------------------------------------------------------------

  /** A tokenized sentence: its text and the end offset of its last token. */
  datatype TokenSentence = TokenSentence(text: string, lastEnd: nat)

  /** The running `end_char` after the first `n` sentences. */
  function EndSum(sents: seq<TokenSentence>, n: nat): nat
    requires n <= |sents|
  {
    if n == 0 then 0 else EndSum(sents, n - 1) + sents[n - 1].lastEnd
  }

  /** The running sum never decreases. */
  lemma {:induction false} EndSumMonotone(sents: seq<TokenSentence>, a: nat, b: nat)
    requires a <= b <= |sents|
    ensures EndSum(sents, a) <= EndSum(sents, b)
    decreases b - a
  {
    if a < b {
      EndSumMonotone(sents, a, b - 1);
    }
  }

  /** Sentence `k` is taken: the running sum through it reaches `start`
      and its text contains the answer. */
  predicate Takes(sents: seq<TokenSentence>, answer: string, start: int, k: nat)
    requires k < |sents|
  {
    start <= EndSum(sents, k + 1) && Contains(sents[k].text, answer)
  }

  /** The first sentence from `i` on that is taken, or -1. */
  function FirstTakenFrom(sents: seq<TokenSentence>, answer: string, start: int, i: nat): (k: int)
    requires i <= |sents|
    ensures k == -1 || (i <= k < |sents| && Takes(sents, answer, start, k))
    ensures k == -1 ==> forall j :: i <= j < |sents| ==> !Takes(sents, answer, start, j)
    ensures k != -1 ==> forall j :: i <= j < k ==> !Takes(sents, answer, start, j)
    decreases |sents| - i
  {
    if i == |sents| then -1
    else if Takes(sents, answer, start, i) then i
    else FirstTakenFrom(sents, answer, start, i + 1)
  }

  /** What `get_cloze` returns: the first taken sentence, or else the whole
      context, with every occurrence of the answer replaced by the type. */
  function Cloze(context: string, answer: string, start: int, kind: string, sents: seq<TokenSentence>): string {
    var k := FirstTakenFrom(sents, answer, start, 0);
    if k >= 0 then ReplaceAll(sents[k].text, answer, kind) else ReplaceAll(context, answer, kind)
  }

  /** `get_cloze(entry)` over the tokenized sentences of its context. */
  method GetCloze(context: string, answer: string, start: int, kind: string, sents: seq<TokenSentence>)
    returns (r: string)
    ensures r == Cloze(context, answer, start, kind, sents)
  {
    var endChar: nat := 0;
    for i := 0 to |sents|
      invariant endChar == EndSum(sents, i)
      invariant forall j :: 0 <= j < i ==> !Takes(sents, answer, start, j)
    {
      endChar := endChar + sents[i].lastEnd;
      if start <= endChar && Contains(sents[i].text, answer) {
        assert Takes(sents, answer, start, i);
        return ReplaceAll(sents[i].text, answer, kind);
      }
    }
    return ReplaceAll(context, answer, kind);
  }

  /** Once the running sum has reached `start` (first at sentence `m`), the
      sentence taken is the first one from `m` on that contains the answer;
      when none does, the whole context is used. */
  lemma ClozeAfterStart(sents: seq<TokenSentence>, answer: string, start: int, m: nat)
    requires m < |sents| && start <= EndSum(sents, m + 1)
    requires forall j :: 0 < j <= m ==> start > EndSum(sents, j)
    ensures var k := FirstTakenFrom(sents, answer, start, 0);
      (k >= 0 ==> m <= k && Contains(sents[k].text, answer)
                  && forall j :: m <= j < k ==> !Contains(sents[j].text, answer))
      && (k == -1 <==> forall j :: m <= j < |sents| ==> !Contains(sents[j].text, answer))
  {
    var k := FirstTakenFrom(sents, answer, start, 0);
    forall j | m <= j < |sents| ensures Takes(sents, answer, start, j) <==> Contains(sents[j].text, answer) {
      EndSumMonotone(sents, m + 1, j + 1);
    }
  }

  /** When the answer is not empty and occurs where the cloze is taken from,
      the type label appears in the cloze; when it occurs nowhere, the cloze
      is the whole context unchanged. */
  lemma ClozeMasks(context: string, answer: string, start: int, kind: string, sents: seq<TokenSentence>)
    requires answer != []
    ensures FirstTakenFrom(sents, answer, start, 0) >= 0 ==> Contains(Cloze(context, answer, start, kind, sents), kind)
    ensures Contains(context, answer) ==> Contains(Cloze(context, answer, start, kind, sents), kind)
    ensures FirstTakenFrom(sents, answer, start, 0) < 0 && !Contains(context, answer)
            ==> Cloze(context, answer, start, kind, sents) == context
  {
    var k := FirstTakenFrom(sents, answer, start, 0);
    if k >= 0 {
      ReplaceAllContainsReplacement(sents[k].text, answer, kind);
    } else {
      if Contains(context, answer) {
        ReplaceAllContainsReplacement(context, answer, kind);
      } else {
        ReplaceAllAbsent(context, answer, kind);
      }
    }
  }
}
