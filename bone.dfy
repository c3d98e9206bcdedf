/** Bones of a skinned mesh (`M3GBone`): the vertices a bone influences are
    sorted and compressed into maximal runs of consecutive vertex indices. */
module Skinning {
  import opened Bytes
  import opened Objects

  ghost predicate Sorted(v: seq<int>)
  {
    forall i, j :: 0 <= i < j < |v| ==> v[i] <= v[j]
  }

  lemma {:induction false} SortedTail(v: seq<int>)
    requires Sorted(v) && v != []
    ensures Sorted(v[1..])
  {
    forall i, j | 0 <= i < j < |v| - 1 ensures v[1..][i] <= v[1..][j] {
      assert v[1..][i] == v[i + 1] && v[1..][j] == v[j + 1];
    }
  }

  lemma {:induction false} SortedCons(a: int, t: seq<int>)
    requires Sorted(t) && (t != [] ==> a <= t[0])
    ensures Sorted([a] + t)
  {
    var r := [a] + t;
    forall i, j | 0 <= i < j < |r| ensures r[i] <= r[j] {
      assert r[j] == t[j - 1];
      if i == 0 {
        assert t[0] <= t[j - 1];
      } else {
        assert r[i] == t[i - 1];
      }
    }
  }

  /** The head of a sorted list is its least element. */
  lemma {:induction false} HeadIsLeast(a: seq<int>, y: int)
    requires Sorted(a) && y in multiset(a)
    ensures a != [] && a[0] <= y
  {
    assert y in a;
    var k :| 0 <= k < |a| && a[k] == y;
  }

  /** x put into its place in the sorted list v. */
  function Insert(x: int, v: seq<int>): (r: seq<int>)
    requires Sorted(v)
    ensures |r| == |v| + 1 && r[0] == if v == [] || x <= v[0] then x else v[0]
    ensures Sorted(r)
    ensures multiset(r) == multiset(v) + multiset{x}
  {
    if v == [] || x <= v[0] then
      SortedCons(x, v);
      [x] + v
    else
      SortedTail(v);
      var t := Insert(x, v[1..]);
      assert v == [v[0]] + v[1..];
      assert v[1..] != [] ==> v[0] <= v[1..][0];
      SortedCons(v[0], t);
      [v[0]] + t
  }

  /** The order `list.sort()` puts a list of integers in. */
  function Sort(v: seq<int>): (r: seq<int>)
    ensures Sorted(r)
    ensures multiset(r) == multiset(v)
  {
    if v == [] then []
    else
      assert v == [v[0]] + v[1..];
      Insert(v[0], Sort(v[1..]))
  }

  /** A list of integers has only one sorted order: whatever sort the
      interpreter uses, its result is Sort(v). */
  lemma {:induction false} SortedUnique(a: seq<int>, b: seq<int>)
    requires Sorted(a) && Sorted(b) && multiset(a) == multiset(b)
    ensures a == b
    decreases |a|
  {
    assert |a| == |multiset(a)| == |multiset(b)| == |b|;
    if a != [] {
      assert a == [a[0]] + a[1..];
      assert b == [b[0]] + b[1..];
      assert a[0] in multiset(b) && b[0] in multiset(a);
      HeadIsLeast(b, a[0]);
      HeadIsLeast(a, b[0]);
      var h := a[0];
      assert b[0] == h;
      assert multiset(a[1..]) == multiset(a) - multiset{h};
      assert multiset(b[1..]) == multiset(b) - multiset{h};
      SortedTail(a);
      SortedTail(b);
      SortedUnique(a[1..], b[1..]);
    }
  }

  /** The consecutive integers first, first + 1, ..., first + count - 1. */
  function Span(first: int, count: int): seq<int>
  {
    seq(if count < 0 then 0 else count, i => first + i)
  }

  /** The vertex indices a list of runs stands for, in order. */
  function Expand(refs: seq<BoneReference>): seq<int>
  {
    if refs == [] then []
    else
      var last := refs[|refs| - 1];
      Expand(refs[..|refs| - 1]) + Span(last.firstVertex, last.vertexCount)
  }

  /** The sum of the vertexCount fields. */
  function Total(refs: seq<BoneReference>): int
  {
    if refs == [] then 0 else Total(refs[..|refs| - 1]) + refs[|refs| - 1].vertexCount
  }

  ghost predicate Positive(refs: seq<BoneReference>)
  {
    forall k :: 0 <= k < |refs| ==> refs[k].vertexCount >= 1
  }

  /** No run ends just before the next one starts. */
  ghost predicate Maximal(refs: seq<BoneReference>)
  {
    forall k :: 0 <= k < |refs| - 1 ==> refs[k].firstVertex + refs[k].vertexCount != refs[k + 1].firstVertex
  }

  /** The runs `createReferences` finds in v, read from the end: the last
      vertex extends the last run when it is one more than the vertex before
      it, and opens a run of its own otherwise. */
  function RunsOf(v: seq<int>): (r: seq<BoneReference>)
    requires |v| > 0
    ensures |r| > 0 && r[|r| - 1].vertexCount >= 1
    ensures r[|r| - 1].firstVertex + r[|r| - 1].vertexCount == v[|v| - 1] + 1
    decreases |v|
  {
    if |v| == 1 then [BoneReference(v[0], 1)]
    else
      var r := RunsOf(v[..|v| - 1]);
      var last := r[|r| - 1];
      if v[|v| - 1] == v[|v| - 2] + 1 then
        r[..|r| - 1] + [BoneReference(last.firstVertex, last.vertexCount + 1)]
      else
        r + [BoneReference(v[|v| - 1], 1)]
  }

  lemma {:induction false} RunsSnoc(w: seq<int>, x: int)
    requires |w| > 0
    ensures var r := RunsOf(w);
      RunsOf(w + [x]) ==
        if x == w[|w| - 1] + 1 then r[..|r| - 1] + [BoneReference(r[|r| - 1].firstVertex, r[|r| - 1].vertexCount + 1)]
        else r + [BoneReference(x, 1)]
  {
    assert (w + [x])[..|w|] == w;
  }

  /** One turn of the `createReferences` loop: the open run list either
      takes x or is closed and replaced by [x]. */
  lemma {:induction false} RunsStep(w: seq<int>, x: int, ref: seq<BoneReference>, list: seq<int>)
    requires |w| > 0 && |list| > 0
    requires ref + [BoneReference(list[0], |list|)] == RunsOf(w)
    ensures x == w[|w| - 1] + 1 ==> ref + [BoneReference(list[0], |list| + 1)] == RunsOf(w + [x])
    ensures x != w[|w| - 1] + 1 ==> ref + [BoneReference(list[0], |list|)] + [BoneReference(x, 1)] == RunsOf(w + [x])
  {
    RunsSnoc(w, x);
    var r := ref + [BoneReference(list[0], |list|)];
    assert r[..|r| - 1] == ref;
  }

  lemma {:induction false} ExpandSnoc(p: seq<BoneReference>, l: BoneReference)
    ensures Expand(p + [l]) == Expand(p) + Span(l.firstVertex, l.vertexCount)
  {
    assert (p + [l])[..|p|] == p;
  }

  lemma {:induction false} SpanSnoc(first: int, count: int)
    requires count >= 1
    ensures Span(first, count) == Span(first, count - 1) + [first + count - 1]
  {
  }

  /** Adding x to the last run, which ends just before x. */
  lemma {:induction false} ExtendRun(p: seq<BoneReference>, l: BoneReference, x: int)
    requires l.vertexCount >= 0 && x == l.firstVertex + l.vertexCount
    ensures Expand(p + [BoneReference(l.firstVertex, l.vertexCount + 1)]) == Expand(p + [l]) + [x]
  {
    ExpandSnoc(p, l);
    ExpandSnoc(p, BoneReference(l.firstVertex, l.vertexCount + 1));
    SpanSnoc(l.firstVertex, l.vertexCount + 1);
  }

  /** Opening a run that holds x alone. */
  lemma {:induction false} OpenRun(r: seq<BoneReference>, x: int)
    ensures Expand(r + [BoneReference(x, 1)]) == Expand(r) + [x]
  {
    ExpandSnoc(r, BoneReference(x, 1));
    SpanSnoc(x, 1);
  }

  /** One more vertex x after runs r standing for w: extending the last run
      or opening a new one makes runs standing for w + [x]. */
  lemma {:induction false} ExpandStep(r: seq<BoneReference>, w: seq<int>, x: int)
    requires |r| > 0 && |w| > 0 && Expand(r) == w
    requires r[|r| - 1].vertexCount >= 1 && r[|r| - 1].firstVertex + r[|r| - 1].vertexCount == w[|w| - 1] + 1
    ensures Expand(
      if x == w[|w| - 1] + 1 then r[..|r| - 1] + [BoneReference(r[|r| - 1].firstVertex, r[|r| - 1].vertexCount + 1)]
      else r + [BoneReference(x, 1)]) == w + [x]
  {
    if x == w[|w| - 1] + 1 {
      ExtendLast(r, x);
    } else {
      OpenRun(r, x);
    }
  }

  /** ExtendRun for the last run of r. */
  lemma {:induction false} ExtendLast(r: seq<BoneReference>, x: int)
    requires |r| > 0 && r[|r| - 1].vertexCount >= 0 && x == r[|r| - 1].firstVertex + r[|r| - 1].vertexCount
    ensures Expand(r[..|r| - 1] + [BoneReference(r[|r| - 1].firstVertex, r[|r| - 1].vertexCount + 1)]) == Expand(r) + [x]
  {
    var p, l := r[..|r| - 1], r[|r| - 1];
    assert r == p + [l];
    ExtendRun(p, l, x);
  }

  /** The runs stand for exactly the vertices of v, in the order of v. */
  lemma {:induction false} RunsExpand(v: seq<int>)
    requires |v| > 0
    ensures Expand(RunsOf(v)) == v
    decreases |v|
  {
    if |v| > 1 {
      var v' := v[..|v| - 1];
      assert v == v' + [v[|v| - 1]];
      RunsExpand(v');
      RunsSnoc(v', v[|v| - 1]);
      ExpandStep(RunsOf(v'), v', v[|v| - 1]);
    } else {
      OpenRun([], v[0]);
      assert v == [v[0]];
    }
  }

  /** Every run holds at least one vertex. */
  lemma {:induction false} RunsPositive(v: seq<int>)
    requires |v| > 0
    ensures Positive(RunsOf(v))
    decreases |v|
  {
    if |v| > 1 {
      var v' := v[..|v| - 1];
      var r := RunsOf(v');
      RunsPositive(v');
      var out := RunsOf(v);
      forall k | 0 <= k < |out| ensures out[k].vertexCount >= 1 {
        if k < |r| - 1 {
          assert out[k] == r[k];
        }
      }
    }
  }

  /** Adjacent runs are never contiguous: every run is as long as it can be. */
  lemma {:induction false} RunsMaximal(v: seq<int>)
    requires |v| > 0
    ensures Maximal(RunsOf(v))
    decreases |v|
  {
    if |v| > 1 {
      var v' := v[..|v| - 1];
      var r := RunsOf(v');
      RunsMaximal(v');
      var out := RunsOf(v);
      forall k | 0 <= k < |out| - 1
        ensures out[k].firstVertex + out[k].vertexCount != out[k + 1].firstVertex
      {
        if k < |r| - 1 {
          assert out[k] == r[k];
          assert out[k + 1].firstVertex == r[k + 1].firstVertex;
        }
      }
    }
  }

  /** The vertex counts add up to the number of vertices. */
  lemma {:induction false} ExpandLength(refs: seq<BoneReference>)
    requires Positive(refs)
    ensures |Expand(refs)| == Total(refs)
    decreases |refs|
  {
    if refs != [] {
      ExpandLength(refs[..|refs| - 1]);
    }
  }

  lemma {:induction false} RunsTotal(v: seq<int>)
    requires |v| > 0
    ensures Total(RunsOf(v)) == |v|
  {
    RunsExpand(v);
    RunsPositive(v);
    ExpandLength(RunsOf(v));
  }

  /** Dropping the last run keeps the runs positive and maximal. */
  lemma {:induction false} PrefixRuns(p: seq<BoneReference>, l: BoneReference)
    requires Positive(p + [l]) && Maximal(p + [l])
    ensures Positive(p) && Maximal(p)
    ensures p != [] ==> p[|p| - 1].firstVertex + p[|p| - 1].vertexCount != l.firstVertex
  {
    var refs := p + [l];
    forall k | 0 <= k < |p| ensures p[k].vertexCount >= 1 {
      assert p[k] == refs[k];
    }
    forall k | 0 <= k < |p| - 1
      ensures p[k].firstVertex + p[k].vertexCount != p[k + 1].firstVertex
    {
      assert p[k] == refs[k] && p[k + 1] == refs[k + 1];
    }
    if p != [] {
      assert refs[|p| - 1] == p[|p| - 1] && refs[|p|] == l;
    }
  }

  /** Taking the last vertex off a run of two or more keeps the runs positive
      and maximal. */
  lemma {:induction false} ShortenLastRun(p: seq<BoneReference>, l: BoneReference)
    requires Positive(p + [l]) && Maximal(p + [l]) && l.vertexCount > 1
    ensures Positive(p + [BoneReference(l.firstVertex, l.vertexCount - 1)])
    ensures Maximal(p + [BoneReference(l.firstVertex, l.vertexCount - 1)])
  {
    var refs, refs' := p + [l], p + [BoneReference(l.firstVertex, l.vertexCount - 1)];
    forall k | 0 <= k < |refs'| ensures refs'[k].vertexCount >= 1 {
      if k < |p| {
        assert refs'[k] == refs[k];
      }
    }
    forall k | 0 <= k < |refs'| - 1
      ensures refs'[k].firstVertex + refs'[k].vertexCount != refs'[k + 1].firstVertex
    {
      assert refs'[k] == refs[k];
      assert refs'[k + 1].firstVertex == refs[k + 1].firstVertex;
    }
  }

  /** RunsOf(v) is the only list of positive, maximal runs that stands for v. */
  lemma {:induction false} RunsUnique(v: seq<int>, refs: seq<BoneReference>)
    requires |v| > 0 && Positive(refs) && Maximal(refs) && Expand(refs) == v
    ensures refs == RunsOf(v)
    decreases |v|, 2
  {
    var p, l := refs[..|refs| - 1], refs[|refs| - 1];
    assert refs == p + [l];
    if l.vertexCount > 1 {
      UniqueLongRun(v, p, l);
    } else {
      UniqueShortRun(v, p, l);
    }
  }

  /** Without its last vertex, a last run of two or more stands for the
      vertices before, and the last vertex follows the one before it. */
  lemma {:induction false} DropLastVertex(p: seq<BoneReference>, l: BoneReference)
    requires l.vertexCount > 1
    ensures var v := Expand(p + [l]);
      && |v| >= 2
      && Expand(p + [BoneReference(l.firstVertex, l.vertexCount - 1)]) == v[..|v| - 1]
      && v[|v| - 1] == v[|v| - 2] + 1
  {
    var l' := BoneReference(l.firstVertex, l.vertexCount - 1);
    assert BoneReference(l'.firstVertex, l'.vertexCount + 1) == l;
    ExtendRun(p, l', l.firstVertex + l.vertexCount - 1);
    ExpandSnoc(p, l');
    var s := Span(l'.firstVertex, l'.vertexCount);
    assert s[|s| - 1] == l.firstVertex + l.vertexCount - 2;
  }

  /** RunsUnique when the last run holds two vertices or more. */
  lemma {:induction false} UniqueLongRun(v: seq<int>, p: seq<BoneReference>, l: BoneReference)
    requires |v| > 0 && Positive(p + [l]) && Maximal(p + [l]) && Expand(p + [l]) == v
    requires l.vertexCount > 1
    ensures p + [l] == RunsOf(v)
    decreases |v|, 1
  {
    var l' := BoneReference(l.firstVertex, l.vertexCount - 1);
    DropLastVertex(p, l);
    ShortenLastRun(p, l);
    RunsUnique(v[..|v| - 1], p + [l']);
    ExtendLastRun(v, p, l);
  }

  /** When the runs of all but the last vertex end in a run that the last
      vertex continues, the runs of v end in that run one longer. */
  lemma {:induction false} ExtendLastRun(v: seq<int>, p: seq<BoneReference>, l: BoneReference)
    requires |v| >= 2 && v[|v| - 1] == v[|v| - 2] + 1 && l.vertexCount > 1
    requires p + [BoneReference(l.firstVertex, l.vertexCount - 1)] == RunsOf(v[..|v| - 1])
    ensures p + [l] == RunsOf(v)
  {
    var v', x := v[..|v| - 1], v[|v| - 1];
    var l' := BoneReference(l.firstVertex, l.vertexCount - 1);
    assert v == v' + [x];
    RunsSnoc(v', x);
    assert x == v'[|v'| - 1] + 1;
    assert (p + [l'])[..|p|] == p;
    assert BoneReference(l'.firstVertex, l'.vertexCount + 1) == l;
  }

  /** A last run of one vertex stands for the last vertex alone. */
  lemma {:induction false} LastSingleRun(p: seq<BoneReference>, l: BoneReference)
    requires l.vertexCount == 1
    ensures var v := Expand(p + [l]);
      |v| > 0 && Expand(p) == v[..|v| - 1] && l == BoneReference(v[|v| - 1], 1)
  {
    OpenRun(p, l.firstVertex);
    assert l == BoneReference(l.firstVertex, 1);
  }

  /** RunsUnique when the last run holds one vertex. */
  lemma {:induction false} UniqueShortRun(v: seq<int>, p: seq<BoneReference>, l: BoneReference)
    requires |v| > 0 && Positive(p + [l]) && Maximal(p + [l]) && Expand(p + [l]) == v
    requires l.vertexCount <= 1
    ensures p + [l] == RunsOf(v)
    decreases |v|, 1
  {
    assert (p + [l])[|p|] == l;
    LastSingleRun(p, l);
    if p != [] {
      PrefixRuns(p, l);
      UniqueAfterRuns(v, p, l);
    } else {
      assert v == [l.firstVertex];
    }
  }

  /** A single-vertex run that does not continue the runs p before it. */
  lemma {:induction false} UniqueAfterRuns(v: seq<int>, p: seq<BoneReference>, l: BoneReference)
    requires |v| > 0 && p != [] && Positive(p) && Maximal(p) && Expand(p) == v[..|v| - 1]
    requires l == BoneReference(v[|v| - 1], 1)
    requires p[|p| - 1].firstVertex + p[|p| - 1].vertexCount != l.firstVertex
    ensures p + [l] == RunsOf(v)
    decreases |v|, 0
  {
    var v', x := v[..|v| - 1], v[|v| - 1];
    assert v == v' + [x];
    assert |v'| > 0 by {
      var q := p[..|p| - 1];
      assert p == q + [p[|p| - 1]];
      ExpandSnoc(q, p[|p| - 1]);
    }
    RunsUnique(v', p);
    RunsSnoc(v', x);
  }

  /** `M3GBone`: the vertices a bone influences and the runs sent in the file. */
  class Bone {
    var verts: seq<int>
    var transformNode: Option<Ref>
    var references: seq<BoneReference>
    var weight: int

    constructor ()
      ensures verts == [] && transformNode == None && references == [] && weight == 0
    {
      verts := [];
      transformNode := None;
      references := [];
      weight := 0;
    }

    /** `setVerts`: take the list, then compute its runs. */
    method SetVerts(aVerts: seq<int>)
      modifies this
      ensures aVerts == [] ==> verts == [] && references == old(references)
      ensures aVerts != [] ==> verts == Sort(aVerts) && references == RunsOf(verts)
      ensures transformNode == old(transformNode) && weight == old(weight)
    {
      verts := aVerts;
      CreateReferences();
    }

    /** `createReferences`: sorts verts and records its maximal runs; an empty
        list leaves both fields as they are. */
    method CreateReferences()
      modifies this
      ensures old(verts) == [] ==> verts == old(verts) && references == old(references)
      ensures old(verts) != [] ==> verts == Sort(old(verts)) && references == RunsOf(verts)
      ensures transformNode == old(transformNode) && weight == old(weight)
    {
      if |verts| == 0 {
        return;
      }
      verts := Sort(verts);
      references := FindRuns(verts);
    }
  }

  /** The state of the `createReferences` loop after the first i vertices:
      the closed runs `ref`, followed by the open run `list`, are the runs of
      those vertices, and `last` is the last of them. */
  ghost predicate Building(v: seq<int>, i: int, ref: seq<BoneReference>, list: seq<int>, last: int)
  {
    && 0 <= i <= |v| && |v| > 0
    && (i == 0 ==> ref == [] && list == [] && last == v[0] - 1)
    && (i > 0 ==> |list| > 0 && last == v[i - 1] && ref + [BoneReference(list[0], |list|)] == RunsOf(v[..i]))
  }

  /** One turn of the loop keeps Building. */
  lemma {:induction false} BuildingStep(v: seq<int>, i: int, ref: seq<BoneReference>, list: seq<int>, last: int)
    requires i < |v| && Building(v, i, ref, list, last)
    ensures v[i] == last + 1 ==> Building(v, i + 1, ref, list + [v[i]], v[i])
    ensures v[i] != last + 1 ==> |list| > 0 && Building(v, i + 1, ref + [BoneReference(list[0], |list|)], [v[i]], v[i])
  {
    var vert := v[i];
    assert v[..i + 1] == v[..i] + [vert];
    if i > 0 {
      assert v[..i][i - 1] == last;
      RunsStep(v[..i], vert, ref, list);
      assert (list + [vert])[0] == list[0];
    } else {
      assert v[..i + 1] == [vert];
    }
  }

  /** The loop of `createReferences`: `list` is the run being built and
      `last` the vertex before; a vertex one above `last` joins the run, any
      other closes it and opens a new one. */
  method FindRuns(v: seq<int>) returns (ref: seq<BoneReference>)
    requires |v| > 0
    ensures ref == RunsOf(v)
  {
    ref := [];
    var list: seq<int> := [];
    var last := v[0] - 1;
    for i := 0 to |v|
      invariant Building(v, i, ref, list, last)
    {
      var vert := v[i];
      BuildingStep(v, i, ref, list, last);
      if vert == last + 1 {
        list := list + [vert];
      } else {
        ref := ref + [BoneReference(list[0], |list|)];
        list := [vert];
      }
      last := vert;
    }
    assert v[..|v|] == v;
    if |list| > 0 {
      ref := ref + [BoneReference(list[0], |list|)];
    }
  }


  /** After `setVerts` on a non-empty list: verts is sorted and holds the same
      vertices, the runs stand for exactly verts, every run is non-empty and
      maximal, and the counts add up to the number of vertices. */
  lemma {:induction false} BoneReferencesCover(verts: seq<int>, references: seq<BoneReference>)
    requires verts != [] && references == RunsOf(verts)
    ensures Expand(references) == verts
    ensures Positive(references) && Maximal(references)
    ensures Total(references) == |verts|
  {
    RunsExpand(verts);
    RunsPositive(verts);
    RunsMaximal(verts);
    RunsTotal(verts);
  }
}
