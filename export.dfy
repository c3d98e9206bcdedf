/** `M3GExporter.start`: the walk from the world, the split of its list into
    external references and scene objects, and the ids handed out in order. */
module Export {
  import opened Bytes
  import opened Objects
  import opened Walk

  /** `isinstance(element, M3GExternalReference)`. */
  predicate IsExternal(s: Store, x: Ref)
  {
    x in s && s[x].ExternalReference?
  }

  /** The external references of l, in the order of l. */
  function Externals(s: Store, l: seq<Ref>): (r: seq<Ref>)
    ensures |r| <= |l|
  {
    if l == [] then []
    else
      var last := l[|l| - 1];
      Externals(s, l[..|l| - 1]) + (if IsExternal(s, last) then [last] else [])
  }

  /** The other objects of l, in the order of l. */
  function Internals(s: Store, l: seq<Ref>): (r: seq<Ref>)
    ensures |r| <= |l|
  {
    if l == [] then []
    else
      var last := l[|l| - 1];
      Internals(s, l[..|l| - 1]) + (if IsExternal(s, last) then [] else [last])
  }

  /** The external references are exactly the entries of l that are ones. */
  lemma {:induction false} ExternalsMembers(s: Store, l: seq<Ref>, x: Ref)
    ensures x in Externals(s, l) <==> x in l && IsExternal(s, x)
  {
    if l != [] {
      var init := l[..|l| - 1];
      ExternalsMembers(s, init, x);
      assert l == init + [l[|l| - 1]];
    }
  }

  /** The scene objects are exactly the other entries of l. */
  lemma {:induction false} InternalsMembers(s: Store, l: seq<Ref>, x: Ref)
    ensures x in Internals(s, l) <==> x in l && !IsExternal(s, x)
  {
    if l != [] {
      var init := l[..|l| - 1];
      InternalsMembers(s, init, x);
      assert l == init + [l[|l| - 1]];
    }
  }

  /** The external references of a prefix of l begin the external references of l. */
  lemma {:induction false} ExternalsPrefix(s: Store, l: seq<Ref>, i: nat)
    requires i <= |l|
    ensures Externals(s, l[..i]) <= Externals(s, l)
    decreases |l| - i
  {
    if i < |l| {
      var init := l[..|l| - 1];
      assert init[..i] == l[..i];
      ExternalsPrefix(s, init, i);
      assert l[..|l|] == l;
    } else {
      assert l[..i] == l;
    }
  }

  /** An entry l[i] that is an external reference sits in the external references right after the
      ones among l[..i]. */
  lemma ExternalsAt(s: Store, l: seq<Ref>, i: nat)
    requires i < |l| && IsExternal(s, l[i])
    ensures |Externals(s, l[..i])| < |Externals(s, l)|
    ensures Externals(s, l)[|Externals(s, l[..i])|] == l[i]
  {
    var front := l[..i + 1];
    assert front[..|front| - 1] == l[..i];
    assert Externals(s, front) == Externals(s, l[..i]) + [l[i]];
    ExternalsPrefix(s, l, i + 1);
  }

  /** The external references keep the order of l: two entries that are an external reference appear
      in the same order in both. */
  lemma ExternalsOrder(s: Store, l: seq<Ref>, i: nat, j: nat)
    requires i < j < |l|
    requires IsExternal(s, l[i]) && IsExternal(s, l[j])
    ensures exists p, q :: 0 <= p < q < |Externals(s, l)| && Externals(s, l)[p] == l[i] && Externals(s, l)[q] == l[j]
  {
    ExternalsAt(s, l, i);
    ExternalsAt(s, l, j);
    var p, q := |Externals(s, l[..i])|, |Externals(s, l[..j])|;
    var upto := l[..j];
    assert upto[..i + 1] == l[..i + 1] && upto[..i] == l[..i];
    ExternalsAt(s, upto, i);
    ExternalsPrefix(s, upto, i + 1);
    assert p < q;
  }

  /** The scene objects of a prefix of l begin the scene objects of l. */
  lemma {:induction false} InternalsPrefix(s: Store, l: seq<Ref>, i: nat)
    requires i <= |l|
    ensures Internals(s, l[..i]) <= Internals(s, l)
    decreases |l| - i
  {
    if i < |l| {
      var init := l[..|l| - 1];
      assert init[..i] == l[..i];
      InternalsPrefix(s, init, i);
      assert l[..|l|] == l;
    } else {
      assert l[..i] == l;
    }
  }

  /** An entry l[i] that is a scene object sits in the scene objects right after the
      ones among l[..i]. */
  lemma InternalsAt(s: Store, l: seq<Ref>, i: nat)
    requires i < |l| && !IsExternal(s, l[i])
    ensures |Internals(s, l[..i])| < |Internals(s, l)|
    ensures Internals(s, l)[|Internals(s, l[..i])|] == l[i]
  {
    var front := l[..i + 1];
    assert front[..|front| - 1] == l[..i];
    assert Internals(s, front) == Internals(s, l[..i]) + [l[i]];
    InternalsPrefix(s, l, i + 1);
  }

  /** The scene objects keep the order of l: two entries that are a scene object appear
      in the same order in both. */
  lemma InternalsOrder(s: Store, l: seq<Ref>, i: nat, j: nat)
    requires i < j < |l|
    requires !IsExternal(s, l[i]) && !IsExternal(s, l[j])
    ensures exists p, q :: 0 <= p < q < |Internals(s, l)| && Internals(s, l)[p] == l[i] && Internals(s, l)[q] == l[j]
  {
    InternalsAt(s, l, i);
    InternalsAt(s, l, j);
    var p, q := |Internals(s, l[..i])|, |Internals(s, l[..j])|;
    var upto := l[..j];
    assert upto[..i + 1] == l[..i + 1] && upto[..i] == l[..i];
    InternalsAt(s, upto, i);
    InternalsPrefix(s, upto, i + 1);
    assert p < q;
  }

  /** Together the two lists are as long as the walk list. */
  lemma {:induction false} PartitionLength(s: Store, l: seq<Ref>)
    ensures |Externals(s, l)| + |Internals(s, l)| == |l|
  {
    if l != [] {
      PartitionLength(s, l[..|l| - 1]);
    }
  }

  lemma NoDupSnoc(l: seq<Ref>, x: Ref)
    requires NoDup(l) && x !in l
    ensures NoDup(l + [x])
  {
    var l' := l + [x];
    forall i, j | 0 <= i < j < |l'| ensures l'[i] != l'[j] {
      assert l'[i] == l[i];
      if j == |l| {
        assert l[i] in l;
      } else {
        assert l'[j] == l[j];
      }
    }
  }

  lemma NoDupAppend(a: seq<Ref>, b: seq<Ref>)
    requires NoDup(a) && NoDup(b) && forall x :: x in a ==> x !in b
    ensures NoDup(a + b)
  {
    var l := a + b;
    forall i, j | 0 <= i < j < |l| ensures l[i] != l[j] {
      if j < |a| {
        assert l[i] == a[i] && l[j] == a[j];
      } else if i >= |a| {
        assert l[i] == b[i - |a|] && l[j] == b[j - |a|];
      } else {
        assert l[i] == a[i] && l[j] == b[j - |a|];
        assert a[i] in a;
      }
    }
  }

  lemma {:induction false} ExternalsNoDup(s: Store, l: seq<Ref>)
    requires NoDup(l)
    ensures NoDup(Externals(s, l))
  {
    if l != [] {
      var init, last := l[..|l| - 1], l[|l| - 1];
      assert NoDup(init);
      ExternalsNoDup(s, init);
      ExternalsMembers(s, init, last);
      forall i | 0 <= i < |init| ensures init[i] != last {
        assert init[i] == l[i];
      }
      if IsExternal(s, last) {
        NoDupSnoc(Externals(s, init), last);
      }
    }
  }

  lemma {:induction false} InternalsNoDup(s: Store, l: seq<Ref>)
    requires NoDup(l)
    ensures NoDup(Internals(s, l))
  {
    if l != [] {
      var init, last := l[..|l| - 1], l[|l| - 1];
      assert NoDup(init);
      InternalsNoDup(s, init);
      InternalsMembers(s, init, last);
      forall i | 0 <= i < |init| ensures init[i] != last {
        assert init[i] == l[i];
      }
      if !IsExternal(s, last) {
        NoDupSnoc(Internals(s, init), last);
      }
    }
  }

  /** Splitting a list without duplicates gives two lists that together hold
      each object once. */
  lemma PartitionNoDup(s: Store, l: seq<Ref>)
    requires NoDup(l)
    ensures NoDup(Externals(s, l) + Internals(s, l))
  {
    ExternalsNoDup(s, l);
    InternalsNoDup(s, l);
    forall x | x in Externals(s, l) ensures x !in Internals(s, l) {
      ExternalsMembers(s, l, x);
      InternalsMembers(s, l, x);
    }
    NoDupAppend(Externals(s, l), Internals(s, l));
  }

  /** The ids the counter hands out: l[k] gets first + k, a later entry
      overriding an earlier one for the same object. */
  function Numbering(l: seq<Ref>, first: nat): (ids: IdMap)
  {
    if l == [] then map[]
    else Numbering(l[..|l| - 1], first)[l[|l| - 1] := first + |l| - 1]
  }

  /** Exactly the listed objects get an id, and it lies in first..first+|l|-1. */
  lemma {:induction false} NumberingKeys(l: seq<Ref>, first: nat, x: Ref)
    ensures x in Numbering(l, first) <==> x in l
    ensures x in Numbering(l, first) ==> first <= Numbering(l, first)[x] < first + |l|
  {
    if l != [] {
      var init := l[..|l| - 1];
      NumberingKeys(init, first, x);
      assert l == init + [l[|l| - 1]];
    }
  }

  /** In a list without duplicates the k-th object gets the id first + k. */
  lemma {:induction false} NumberingAt(l: seq<Ref>, first: nat, k: nat)
    requires NoDup(l) && k < |l|
    ensures l[k] in Numbering(l, first) && Numbering(l, first)[l[k]] == first + k
  {
    if k < |l| - 1 {
      var init := l[..|l| - 1];
      assert init[k] == l[k];
      assert l[k] != l[|l| - 1];
      assert NoDup(init);
      NumberingAt(init, first, k);
    }
  }

  /** Every scene object comes after whatever it refers to, external
      references aside. */
  ghost predicate OrderedAmongScene(s: Store, l: seq<Ref>)
  {
    forall k :: 0 <= k < |l| ==> l[k] in s && forall x :: Follows(s[l[k]], x) && !IsExternal(s, x) ==> x in l[..k]
  }

  /** The scene objects keep the dependency order of the walk: whatever a
      scene object refers to, other than an external reference, comes before
      it in the list of scene objects. */
  lemma {:induction false} InternalsOrdered(s: Store, l: seq<Ref>)
    requires DependencyOrdered(s, l)
    ensures OrderedAmongScene(s, Internals(s, l))
  {
    if l != [] {
      var init, last := l[..|l| - 1], l[|l| - 1];
      assert DependencyOrdered(s, init) by {
        forall i | 0 <= i < |init| ensures init[i] in s && forall x :: Follows(s[init[i]], x) ==> x in init[..i] {
          assert init[i] == l[i] && init[..i] == l[..i];
        }
      }
      InternalsOrdered(s, init);
      var r0, r := Internals(s, init), Internals(s, l);
      forall k | 0 <= k < |r| ensures r[k] in s && forall x :: Follows(s[r[k]], x) && !IsExternal(s, x) ==> x in r[..k] {
        if k < |r0| {
          assert r[k] == r0[k] && r[..k] == r0[..k];
        } else {
          assert r[k] == last && r[..k] == r0;
          assert l[..|l| - 1] == init;
          forall x | Follows(s[last], x) && !IsExternal(s, x) ensures x in r0 {
            assert x in init;
            InternalsMembers(s, init, x);
          }
        }
      }
    }
  }

  /** The id loops of `start`: 1 is kept for the header object, the external
      references are numbered from 2 on and the scene objects after them. */
  method AssignIds(s: Store, exportList: seq<Ref>)
    returns (ids: IdMap, externalReferences: seq<Ref>, sceneObjects: seq<Ref>)
    ensures externalReferences == Externals(s, exportList)
    ensures sceneObjects == Internals(s, exportList)
    ensures ids == StartIds(s, exportList)
  {
    externalReferences := Externals(s, exportList);
    sceneObjects := Internals(s, exportList);
    ids := map[];
    var i := 1;
    for k := 0 to |externalReferences|
      invariant i == 1 + k
      invariant ids == Numbering(externalReferences[..k], 2)
    {
      i := i + 1;
      NumberingStep(externalReferences, 2, k);
      ids := ids[externalReferences[k] := i];
    }
    var all := externalReferences + sceneObjects;
    assert all[..|externalReferences|] == externalReferences[..|externalReferences|];
    for k := 0 to |sceneObjects|
      invariant i == 1 + |externalReferences| + k
      invariant ids == Numbering(all[..|externalReferences| + k], 2)
    {
      i := i + 1;
      NumberingStep(all, 2, |externalReferences| + k);
      assert all[|externalReferences| + k] == sceneObjects[k];
      ids := ids[sceneObjects[k] := i];
    }
    assert all[..|all|] == all;
  }

  /** One more step of the counter. */
  lemma NumberingStep(l: seq<Ref>, first: nat, k: nat)
    requires k < |l|
    ensures Numbering(l[..k + 1], first) == Numbering(l[..k], first)[l[k] := first + k]
  {
    assert l[..k + 1][..k] == l[..k];
  }

  /** The ids `start` leaves on the objects of the walk list l. */
  function StartIds(s: Store, l: seq<Ref>): IdMap
  {
    Numbering(Externals(s, l) + Internals(s, l), 2)
  }

  /** The k-th external reference gets the id 2 + k. */
  lemma ExternalId(s: Store, l: seq<Ref>, k: nat)
    requires NoDup(l) && k < |Externals(s, l)|
    ensures Externals(s, l)[k] in StartIds(s, l) && StartIds(s, l)[Externals(s, l)[k]] == 2 + k
  {
    var all := Externals(s, l) + Internals(s, l);
    PartitionNoDup(s, l);
    assert all[k] == Externals(s, l)[k];
    NumberingAt(all, 2, k);
  }

  /** The k-th scene object gets the id 2 + (number of external references) + k. */
  lemma SceneId(s: Store, l: seq<Ref>, k: nat)
    requires NoDup(l) && k < |Internals(s, l)|
    ensures Internals(s, l)[k] in StartIds(s, l)
    ensures StartIds(s, l)[Internals(s, l)[k]] == 2 + |Externals(s, l)| + k
  {
    var ext := Externals(s, l);
    var all := ext + Internals(s, l);
    PartitionNoDup(s, l);
    assert all[|ext| + k] == Internals(s, l)[k];
    NumberingAt(all, 2, |ext| + k);
  }

  /** Exactly the listed objects get an id, and none gets 0, 1 (the header's)
      or more than |l| + 1. */
  lemma IdRange(s: Store, l: seq<Ref>, x: Ref)
    ensures x in StartIds(s, l) <==> x in l
    ensures x in StartIds(s, l) ==> 2 <= StartIds(s, l)[x] < 2 + |l|
  {
    NumberingKeys(Externals(s, l) + Internals(s, l), 2, x);
    ExternalsMembers(s, l, x);
    InternalsMembers(s, l, x);
    PartitionLength(s, l);
  }

  /** No two objects share an id. */
  lemma IdsDistinct(s: Store, l: seq<Ref>, x: Ref, y: Ref)
    requires NoDup(l) && x in StartIds(s, l) && y in StartIds(s, l) && x != y
    ensures StartIds(s, l)[x] != StartIds(s, l)[y]
  {
    var all := Externals(s, l) + Internals(s, l);
    PartitionNoDup(s, l);
    NumberingKeys(all, 2, x);
    NumberingKeys(all, 2, y);
    var a :| 0 <= a < |all| && all[a] == x;
    var b :| 0 <= b < |all| && all[b] == y;
    NumberingAt(all, 2, a);
    NumberingAt(all, 2, b);
  }

  /** Ids follow the references: every object of the list refers only to
      objects with a smaller id, so a reader that loads objects in id order
      has every referenced object at hand. */
  lemma ReferencesPrecede(s: Store, l: seq<Ref>, x: Ref, r: Ref)
    requires NoDup(l) && DependencyOrdered(s, l)
    requires x in l && Follows(s[x], r)
    ensures r in StartIds(s, l) && x in StartIds(s, l)
    ensures StartIds(s, l)[r] < StartIds(s, l)[x]
  {
    var ext, scene := Externals(s, l), Internals(s, l);
    var i :| 0 <= i < |l| && l[i] == x;
    assert r in l[..i];
    assert r in l;
    assert !IsExternal(s, x);
    InternalsMembers(s, l, x);
    var kx :| 0 <= kx < |scene| && scene[kx] == x;
    SceneId(s, l, kx);
    if IsExternal(s, r) {
      ExternalsMembers(s, l, r);
      var kr :| 0 <= kr < |ext| && ext[kr] == r;
      ExternalId(s, l, kr);
    } else {
      InternalsOrdered(s, l);
      assert r in scene[..kx];
      var kr :| 0 <= kr < kx && scene[kr] == r;
      SceneId(s, l, kr);
    }
  }
}
