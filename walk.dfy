/** The export walk (`searchDeep` / `doSearchDeep`): a depth-first traversal
    that appends every object after the objects it refers to, skipping None
    references and objects already in the list. */
module Walk {
  import opened Bytes
  import opened Objects

  /** Every reference in rs names an object of s with a handle below bound. */
  ghost predicate RefsBelow(s: Store, rs: seq<Option<Ref>>, bound: Ref)
  {
    forall r :: Some(r) in rs ==> r in s && r < bound
  }

  /** In a well-formed store the walk only follows references to older objects. */
  lemma FollowedBelow(s: Store, h: Ref)
    requires WellFormed(s) && h in s
    ensures RefsBelow(s, WalkRefs(s[h]), h)
  {
    forall r | Some(r) in WalkRefs(s[h]) ensures r in s && r < h {
      assert Follows(s[h], r);
    }
  }

  lemma RefsBelowTail(s: Store, rs: seq<Option<Ref>>, bound: Ref, i: nat)
    requires RefsBelow(s, rs, bound) && i <= |rs|
    ensures RefsBelow(s, rs[i..], bound)
  {
    forall r | Some(r) in rs[i..] ensures r in s && r < bound {
      var k :| i <= k < |rs| && rs[k] == Some(r);
    }
  }

  /** `h.searchDeep(acc)`: the objects h refers to are walked first, in the
      order its class lists them, then h is appended unless already present. */
  function Visit(s: Store, h: Ref, acc: seq<Ref>): (r: seq<Ref>)
    requires WellFormed(s) && h in s
    ensures |r| >= |acc| && r[..|acc|] == acc
    ensures h in r
    decreases h, 1
  {
    FollowedBelow(s, h);
    var acc' := VisitAll(s, WalkRefs(s[h]), h, acc);
    if h in acc' then acc' else acc' + [h]
  }

  /** `doSearchDeep(rs, acc)`: each non-None reference is walked in turn. */
  function VisitAll(s: Store, rs: seq<Option<Ref>>, bound: Ref, acc: seq<Ref>): (r: seq<Ref>)
    requires WellFormed(s) && RefsBelow(s, rs, bound)
    ensures |r| >= |acc| && r[..|acc|] == acc
    decreases bound, 0, |rs|
  {
    if rs == [] then acc
    else
      RefsBelowTail(s, rs, bound, 1);
      var acc1 := if rs[0].Some? then Visit(s, rs[0].value, acc) else acc;
      var r := VisitAll(s, rs[1..], bound, acc1);
      assert r[..|acc|] == r[..|acc1|][..|acc|];
      r
  }

  /** x is h itself or reachable from one of the references the walk follows
      from h. */
  ghost predicate Reaches(s: Store, h: Ref, x: Ref)
    requires h in s
    decreases h, 1
  {
    x == h || ReachesAny(s, WalkRefs(s[h]), h, x)
  }

  ghost predicate ReachesAny(s: Store, rs: seq<Option<Ref>>, bound: Ref, x: Ref)
    decreases bound, 0
  {
    exists r :: Some(r) in rs && r in s && r < bound && Reaches(s, r, x)
  }

  ghost predicate NoDup(l: seq<Ref>)
  {
    forall i, j :: 0 <= i < j < |l| ==> l[i] != l[j]
  }

  /** Every entry is an object of s, and everything it refers to comes earlier. */
  ghost predicate DependencyOrdered(s: Store, l: seq<Ref>)
  {
    forall i :: 0 <= i < |l| ==> l[i] in s && forall r :: Follows(s[l[i]], r) ==> r in l[..i]
  }

  /** The walk never adds an object twice: the `not in` check keeps a list
      without duplicates free of them. */
  lemma {:induction false} VisitNoDup(s: Store, h: Ref, acc: seq<Ref>)
    requires WellFormed(s) && h in s && NoDup(acc)
    ensures NoDup(Visit(s, h, acc))
    decreases h, 1
  {
    FollowedBelow(s, h);
    VisitAllNoDup(s, WalkRefs(s[h]), h, acc);
  }

  lemma {:induction false} VisitAllNoDup(s: Store, rs: seq<Option<Ref>>, bound: Ref, acc: seq<Ref>)
    requires WellFormed(s) && RefsBelow(s, rs, bound) && NoDup(acc)
    ensures NoDup(VisitAll(s, rs, bound, acc))
    decreases bound, 0, |rs|
  {
    if rs != [] {
      RefsBelowTail(s, rs, bound, 1);
      var acc1 := if rs[0].Some? then Visit(s, rs[0].value, acc) else acc;
      if rs[0].Some? {
        VisitNoDup(s, rs[0].value, acc);
      }
      VisitAllNoDup(s, rs[1..], bound, acc1);
    }
  }

  /** The walk from h adds exactly the objects reachable from h that the list
      does not hold yet. */
  lemma {:induction false} VisitContents(s: Store, h: Ref, acc: seq<Ref>, x: Ref)
    requires WellFormed(s) && h in s
    ensures x in Visit(s, h, acc) <==> x in acc || Reaches(s, h, x)
    decreases h, 1
  {
    FollowedBelow(s, h);
    VisitAllContents(s, WalkRefs(s[h]), h, acc, x);
  }

  lemma {:induction false} VisitAllContents(s: Store, rs: seq<Option<Ref>>, bound: Ref, acc: seq<Ref>, x: Ref)
    requires WellFormed(s) && RefsBelow(s, rs, bound)
    ensures x in VisitAll(s, rs, bound, acc) <==> x in acc || ReachesAny(s, rs, bound, x)
    decreases bound, 0, |rs|
  {
    if rs != [] {
      RefsBelowTail(s, rs, bound, 1);
      var acc1 := if rs[0].Some? then Visit(s, rs[0].value, acc) else acc;
      if rs[0].Some? {
        VisitContents(s, rs[0].value, acc, x);
      }
      VisitAllContents(s, rs[1..], bound, acc1, x);
      assert rs == [rs[0]] + rs[1..];
      if ReachesAny(s, rs, bound, x) {
        var r :| Some(r) in rs && r in s && r < bound && Reaches(s, r, x);
        if Some(r) != rs[0] {
          assert Some(r) in rs[1..];
        }
      }
      if ReachesAny(s, rs[1..], bound, x) {
        var r :| Some(r) in rs[1..] && r in s && r < bound && Reaches(s, r, x);
        assert Some(r) in rs;
      }
      if rs[0].Some? && Reaches(s, rs[0].value, x) {
        assert Some(rs[0].value) in rs;
      }
    }
  }

  /** Every object the walk appends comes after all the objects it refers to. */
  lemma {:induction false} VisitOrdered(s: Store, h: Ref, acc: seq<Ref>)
    requires WellFormed(s) && h in s && DependencyOrdered(s, acc)
    ensures DependencyOrdered(s, Visit(s, h, acc))
    decreases h, 1
  {
    FollowedBelow(s, h);
    var rs := WalkRefs(s[h]);
    var acc' := VisitAll(s, rs, h, acc);
    VisitAllOrdered(s, rs, h, acc);
    if h !in acc' {
      var l := acc' + [h];
      forall i | 0 <= i < |l| ensures l[i] in s && forall r :: Follows(s[l[i]], r) ==> r in l[..i] {
        if i < |acc'| {
          assert l[..i] == acc'[..i];
          assert l[i] == acc'[i];
        } else {
          assert l[..i] == acc';
          forall r: Ref | Follows(s[h], r) ensures r in acc' {
            assert Some(r) in rs;
            assert Reaches(s, r, r);
            VisitAllContents(s, rs, h, acc, r);
          }
        }
      }
    }
  }

  lemma {:induction false} VisitAllOrdered(s: Store, rs: seq<Option<Ref>>, bound: Ref, acc: seq<Ref>)
    requires WellFormed(s) && RefsBelow(s, rs, bound) && DependencyOrdered(s, acc)
    ensures DependencyOrdered(s, VisitAll(s, rs, bound, acc))
    decreases bound, 0, |rs|
  {
    if rs != [] {
      RefsBelowTail(s, rs, bound, 1);
      var acc1 := if rs[0].Some? then Visit(s, rs[0].value, acc) else acc;
      if rs[0].Some? {
        VisitOrdered(s, rs[0].value, acc);
      }
      VisitAllOrdered(s, rs[1..], bound, acc1);
    }
  }

  /** Everything reachable from h is an object with a handle no larger than h. */
  lemma {:induction false} ReachesBelow(s: Store, h: Ref, x: Ref)
    requires WellFormed(s) && h in s && Reaches(s, h, x)
    ensures x in s && x <= h
    decreases h
  {
    if x != h {
      var r :| Some(r) in WalkRefs(s[h]) && r in s && r < h && Reaches(s, r, x);
      ReachesBelow(s, r, x);
    }
  }

  /** `createDeepSearchList`: the list the walk from the world builds. It has
      no duplicates, holds exactly the objects reachable from the world, puts
      every object after the objects it refers to, and ends with the world. */
  lemma DeepSearchList(s: Store, world: Ref)
    requires WellFormed(s) && world in s
    ensures var l := Visit(s, world, []);
      && NoDup(l)
      && DependencyOrdered(s, l)
      && (forall x :: x in l <==> Reaches(s, world, x))
      && l[|l| - 1] == world
  {
    var l := Visit(s, world, []);
    VisitNoDup(s, world, []);
    VisitOrdered(s, world, []);
    forall x ensures x in l <==> Reaches(s, world, x) {
      VisitContents(s, world, [], x);
    }
    FollowedBelow(s, world);
    var rs := WalkRefs(s[world]);
    var acc' := VisitAll(s, rs, world, []);
    if world in acc' {
      VisitAllContents(s, rs, world, [], world);
      var r :| Some(r) in rs && r in s && r < world && Reaches(s, r, world);
      ReachesBelow(s, r, world);
    }
  }

  /** The imperative walk: `searchDeep` of the object h on the list alist. */
  method SearchDeep(s: Store, h: Ref, alist: seq<Ref>) returns (result: seq<Ref>)
    requires WellFormed(s) && h in s
    ensures result == Visit(s, h, alist)
    decreases h, 1
  {
    FollowedBelow(s, h);
    result := DoSearchDeep(s, WalkRefs(s[h]), h, alist);
    if h !in result {
      result := result + [h];
    }
  }

  /** `doSearchDeep(inList, outList)`. */
  method DoSearchDeep(s: Store, inList: seq<Option<Ref>>, bound: Ref, outList: seq<Ref>)
    returns (result: seq<Ref>)
    requires WellFormed(s) && RefsBelow(s, inList, bound)
    ensures result == VisitAll(s, inList, bound, outList)
    decreases bound, 0
  {
    result := outList;
    for i := 0 to |inList|
      invariant RefsBelow(s, inList[i..], bound)
      invariant VisitAll(s, inList[i..], bound, result) == VisitAll(s, inList, bound, outList)
    {
      assert inList[i..][1..] == inList[i + 1..];
      RefsBelowTail(s, inList, bound, i + 1);
      if inList[i].Some? {
        result := SearchDeep(s, inList[i].value, result);
      }
    }
  }
}
