/** Constituency parse trees and the other annotations the pipeline receives
    from its annotator (tokens with lemmas, named entities, sentences). The
    annotator itself is not modelled: callers pass its output in. */
module ParseTree {
  import opened PyStr

  /** A parse-tree node: a label and ordered children. A node without
      children is a leaf, and its label is the word. (`label` is a keyword of
      Dafny, so the field is called `name`.) */
  datatype Tree = Node(name: string, children: seq<Tree>) {
    predicate IsLeaf() { children == [] }
  }

  /** `tree.leaf_labels()`: the words under a node, left to right. */
  function LeafLabels(t: Tree): (r: seq<string>)
    ensures |r| >= 1
    decreases t, 1
  {
    if t.IsLeaf() then [t.name] else LeafLabelsOf(t.children)
  }

  function LeafLabelsOf(ts: seq<Tree>): (r: seq<string>)
    ensures |r| >= |ts|
    decreases ts, 0
  {
    if ts == [] then [] else LeafLabels(ts[0]) + LeafLabelsOf(ts[1..])
  }

  /** `sep.join(tree.leaf_labels())`, the text a subtree covers. */
  function TreeToText(t: Tree, sep: string): string {
    Join(sep, LeafLabels(t))
  }

  /** A child never has more leaves than its parent. */
  lemma {:induction false} LeafCountOfChild(t: Tree, k: nat)
    requires k < |t.children|
    ensures |LeafLabels(t.children[k])| <= |LeafLabels(t)|
  {
    LeafCountOfMember(t.children, k);
  }

  lemma {:induction false} LeafCountOfMember(ts: seq<Tree>, k: nat)
    requires k < |ts|
    ensures |LeafLabels(ts[k])| <= |LeafLabelsOf(ts)|
    decreases ts
  {
    if k > 0 {
      LeafCountOfMember(ts[1..], k - 1);
    }
  }

  /** The internal (non-leaf) nodes of a tree, children before their parent. */
  function PostOrder(t: Tree): (r: seq<Tree>)
    decreases t, 1
  {
    if t.IsLeaf() then [] else PostOrderOf(t.children) + [t]
  }

  function PostOrderOf(ts: seq<Tree>): seq<Tree>
    decreases ts, 0
  {
    if ts == [] then [] else PostOrder(ts[0]) + PostOrderOf(ts[1..])
  }

  /** The internal nodes of a tree, each parent before its children. */
  function PreOrder(t: Tree): (r: seq<Tree>)
    decreases t, 1
  {
    if t.IsLeaf() then [] else [t] + PreOrderOf(t.children)
  }

  function PreOrderOf(ts: seq<Tree>): seq<Tree>
    decreases ts, 0
  {
    if ts == [] then [] else PreOrder(ts[0]) + PreOrderOf(ts[1..])
  }

  /** The two traversals visit the same nodes, only in a different order. */
  lemma {:induction false} PreOrderPermutesPostOrder(t: Tree)
    ensures multiset(PreOrder(t)) == multiset(PostOrder(t))
    decreases t, 1
  {
    if !t.IsLeaf() {
      PreOrderPermutesPostOrderOf(t.children);
    }
  }

  lemma {:induction false} PreOrderPermutesPostOrderOf(ts: seq<Tree>)
    ensures multiset(PreOrderOf(ts)) == multiset(PostOrderOf(ts))
    decreases ts, 0
  {
    if ts != [] {
      PreOrderPermutesPostOrder(ts[0]);
      PreOrderPermutesPostOrderOf(ts[1..]);
    }
  }

  /** `[render(n) for n in nodes if keep(n)]`. */
  function Collect(nodes: seq<Tree>, keep: Tree -> bool, render: Tree -> string): (r: seq<string>)
    ensures |r| <= |nodes|
  {
    if nodes == [] then []
    else (if keep(nodes[0]) then [render(nodes[0])] else []) + Collect(nodes[1..], keep, render)
  }

  lemma {:induction false} CollectAppend(a: seq<Tree>, b: seq<Tree>, keep: Tree -> bool, render: Tree -> string)
    ensures Collect(a + b, keep, render) == Collect(a, keep, render) + Collect(b, keep, render)
  {
    if a != [] {
      CollectAppend(a[1..], b, keep, render);
      var h := if keep(a[0]) then [render(a[0])] else [];
      assert (a + b)[0] == a[0];
      assert (a + b)[1..] == a[1..] + b;
      assert Collect(a + b, keep, render) == h + Collect(a[1..] + b, keep, render);
      assert Collect(a, keep, render) == h + Collect(a[1..], keep, render);
    } else {
      assert a + b == b;
    }
  }

  /** Taking one element out of two permutations of each other leaves
      permutations of each other. */
  lemma RemoveFromPermutation(a: seq<Tree>, b: seq<Tree>, i: nat)
    requires multiset(a) == multiset(b) && a != [] && i < |b| && b[i] == a[0]
    ensures multiset(a[1..]) == multiset(b[..i] + b[i + 1..])
  {
    var x := a[0];
    assert a == [x] + a[1..];
    assert b == b[..i] + ([x] + b[i + 1..]);
    assert multiset(a[1..]) == multiset(a) - multiset{x};
    assert multiset(b[..i] + b[i + 1..]) == multiset(b) - multiset{x};
  }

  /** Collecting around one node splits into three parts. */
  lemma CollectAround(l: seq<Tree>, x: Tree, r: seq<Tree>, keep: Tree -> bool, render: Tree -> string)
    ensures Collect(l + [x] + r, keep, render)
            == Collect(l, keep, render) + Collect([x], keep, render) + Collect(r, keep, render)
  {
    assert l + [x] + r == l + ([x] + r);
    CollectAppend(l, [x] + r, keep, render);
    CollectAppend([x], r, keep, render);
  }

  lemma MultisetRearrange(cx: seq<string>, ct: seq<string>, cl: seq<string>, cr: seq<string>)
    requires multiset(ct) == multiset(cl + cr)
    ensures multiset(cx + ct) == multiset(cl + cx + cr)
  {
    assert multiset(cx + ct) == multiset(cx) + multiset(ct);
    assert multiset(cl + cx + cr) == multiset(cl) + multiset(cx) + multiset(cr);
  }

  /** One step of the induction below, on the pieces around the moved node. */
  lemma CollectPermutesStep(x: Tree, t: seq<Tree>, l: seq<Tree>, r: seq<Tree>,
                            keep: Tree -> bool, render: Tree -> string)
    requires multiset(Collect(t, keep, render)) == multiset(Collect(l + r, keep, render))
    ensures multiset(Collect([x] + t, keep, render)) == multiset(Collect(l + [x] + r, keep, render))
  {
    CollectAround(l, x, r, keep, render);
    CollectAppend(l, r, keep, render);
    CollectAppend([x], t, keep, render);
    MultisetRearrange(Collect([x], keep, render), Collect(t, keep, render),
                      Collect(l, keep, render), Collect(r, keep, render));
  }

  /** Collecting over a permutation of the nodes gives a permutation of the
      texts. */
  lemma {:induction false} CollectPermutes(a: seq<Tree>, b: seq<Tree>, keep: Tree -> bool, render: Tree -> string)
    requires multiset(a) == multiset(b)
    ensures multiset(Collect(a, keep, render)) == multiset(Collect(b, keep, render))
    decreases |a|
  {
    if a == [] {
      assert |b| == |multiset(b)| == 0;
    } else {
      assert a[0] in multiset(b);
      var i :| 0 <= i < |b| && b[i] == a[0];
      RemoveFromPermutation(a, b, i);
      CollectPermutes(a[1..], b[..i] + b[i + 1..], keep, render);
      CollectPermutesStep(a[0], a[1..], b[..i], b[i + 1..], keep, render);
      assert [a[0]] + a[1..] == a;
      assert b[..i] + [a[0]] + b[i + 1..] == b;
    }
  }

  /** Two renderings that agree on every node collect the same texts. */
  lemma {:induction false} CollectSameRender(nodes: seq<Tree>, keep: Tree -> bool, r1: Tree -> string, r2: Tree -> string)
    requires forall k :: 0 <= k < |nodes| ==> r1(nodes[k]) == r2(nodes[k])
    ensures Collect(nodes, keep, r1) == Collect(nodes, keep, r2)
  {
    if nodes != [] {
      CollectSameRender(nodes[1..], keep, r1, r2);
    }
  }

  // ---------------------------------------------------------------------
  // What the annotator hands over
  // ---------------------------------------------------------------------

  /** A token with its lemma (`lemma` is a keyword of Dafny, so the field is
      called `baseForm`). */
  datatype Word = Word(text: string, baseForm: string)

  /** A named entity: its text, its type label and the character offset where
      it ends. */
  datatype Entity = Entity(text: string, kind: string, endChar: int)

  /** An annotated sentence: its parse tree, its raw text and the end offset of
      its last token (`sent.tokens[-1].end_char`). */
  datatype Sentence = Sentence(tree: Tree, text: string, lastEndChar: int)

  /** An annotated text: its sentences and its named entities. */
  datatype NlpDoc = NlpDoc(sentences: seq<Sentence>, ents: seq<Entity>)
}
