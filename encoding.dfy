/** The data part of every object record (`getData`) and the length the
    exporter announces for it (`getDataLength`). Each class appends its own
    fields to those of its base class, so each layer below is the layer under
    it followed by the class's fields. */
module Encoding {
  import opened Bytes
  import opened Strings
  import opened Objects

  /** Concatenated Float32 images. */
  function F32s(fs: seq<F32>): (r: seq<byte>)
    ensures |r| == 4 * |fs|
  {
    if fs == [] then [] else fs[0] + F32s(fs[1..])
  }

  function Vector3DData(v: Vector3D): (r: seq<byte>)
    ensures |r| == 12
  {
    v.x + v.y + v.z
  }

  function ColorRGBData(c: ColorRGB): (r: seq<byte>)
    ensures |r| == 3
  {
    [c.red, c.green, c.blue]
  }

  function ColorRGBAData(c: ColorRGBA): (r: seq<byte>)
    ensures |r| == 4
  {
    [c.red, c.green, c.blue, c.alpha]
  }

  /** `getId` of every entry, each as a UInt32. */
  function RefList(rs: seq<Option<Ref>>, ids: IdMap): (r: seq<byte>)
    requires IdsFit(ids)
    ensures |r| == 4 * |rs|
  {
    if rs == [] then [] else LE32(GetId(rs[0], ids)) + RefList(rs[1..], ids)
  }

  /** The k-th UInt32 of a reference list is the id of the k-th reference. */
  lemma {:induction false} RefListAt(rs: seq<Option<Ref>>, ids: IdMap, k: nat)
    requires IdsFit(ids) && k < |rs|
    ensures Unsigned(RefList(rs, ids)[4 * k .. 4 * k + 4]) == GetId(rs[k], ids)
  {
    if k > 0 {
      RefListAt(rs[1..], ids, k - 1);
      assert RefList(rs, ids)[4 * k .. 4 * k + 4] == RefList(rs[1..], ids)[4 * (k - 1) .. 4 * (k - 1) + 4];
    } else {
      assert RefList(rs, ids)[0..4] == LE32(GetId(rs[0], ids));
    }
  }

  /** A list of UInt32 values. */
  function U32List(xs: seq<nat>): (r: seq<byte>)
    requires forall i :: 0 <= i < |xs| ==> xs[i] < MAX32
    ensures |r| == 4 * |xs|
  {
    if xs == [] then [] else LE32(xs[0]) + U32List(xs[1..])
  }

  /** The k-th UInt32 of a packed list is the k-th value. */
  lemma {:induction false} U32ListAt(xs: seq<nat>, k: nat)
    requires forall i :: 0 <= i < |xs| ==> xs[i] < MAX32
    requires k < |xs|
    ensures Unsigned(U32List(xs)[4 * k .. 4 * k + 4]) == xs[k]
  {
    if k > 0 {
      U32ListAt(xs[1..], k - 1);
      assert U32List(xs)[4 * k .. 4 * k + 4] == U32List(xs[1..])[4 * (k - 1) .. 4 * (k - 1) + 4];
    } else {
      assert U32List(xs)[0..4] == LE32(xs[0]);
    }
  }

  /** Appending fields keeps every prefix of the base. */
  lemma PrefixKept(base: seq<byte>, fields: seq<byte>, k: nat)
    requires k <= |base|
    ensures (base + fields)[..k] == base[..k]
  {
  }

  // ----- Where a field sits in a record -----

  /** The number the four bytes of d from offset `at` stand for, least
      significant byte first. */
  function Word(d: seq<byte>, at: nat): nat
    requires at + 4 <= |d|
  {
    d[at] as int + 0x100 * d[at + 1] as int + 0x1_0000 * d[at + 2] as int + 0x100_0000 * d[at + 3] as int
  }

  /** A word is the unsigned reading of its four bytes (`struct.unpack('<I')`). */
  lemma WordIsUnsigned(d: seq<byte>, at: nat)
    requires at + 4 <= |d|
    ensures Word(d, at) == Unsigned(d[at..at + 4])
  {
    var w := d[at..at + 4];
    assert w[1..][1..][1..][1..] == [];
    assert Unsigned(w[1..][1..][1..]) == w[3] as int;
    assert Unsigned(w[1..][1..]) == w[2] as int + 0x100 * w[3] as int;
    assert Unsigned(w[1..]) == w[1] as int + 0x100 * w[2] as int + 0x1_0000 * w[3] as int;
  }

  /** The UInt32 at byte offset `at` of d is v. */
  predicate U32At(d: seq<byte>, at: nat, v: int)
  {
    at + 4 <= |d| && Word(d, at) == v
  }

  /** The four-byte two's-complement pattern of an Int32 value. */
  function AsU32(x: int): int
  {
    if x < 0 then x + 0x1_0000_0000 else x
  }

  /** An Int32 is written as the UInt32 with the same four bytes. */
  lemma I32AsLE32(x: i32)
    ensures 0 <= AsU32(x) < MAX32 && I32(x) == LE32(AsU32(x))
  {
  }

  /** What U32At states, read the way the format reads it: as a UInt32, and
      for the pattern of an Int32 as that Int32. */
  lemma FieldsRead(d: seq<byte>, at: nat, v: int)
    requires at + 4 <= |d|
    ensures U32At(d, at, v) ==> Unsigned(d[at..at + 4]) == v
    ensures -0x8000_0000 <= v < 0x8000_0000 && U32At(d, at, AsU32(v)) ==> Signed(d[at..at + 4]) == v
  {
    WordIsUnsigned(d, at);
    assert Radix(4) == 0x1_0000_0000;
  }

  /** Bytes placed between a and b keep their words. */
  lemma WordIn(d: seq<byte>, a: seq<byte>, w: seq<byte>, b: seq<byte>, at: nat)
    requires d == a + w + b && at + 4 <= |w|
    ensures Word(d, |a| + at) == Word(w, at)
  {
    assert d[|a| + at] == w[at] && d[|a| + at + 1] == w[at + 1];
    assert d[|a| + at + 2] == w[at + 2] && d[|a| + at + 3] == w[at + 3];
  }

  /** A UInt32 written after a bytes sits at offset |a|. */
  lemma U32AtOf(d: seq<byte>, a: seq<byte>, x: u32, b: seq<byte>)
    requires d == a + LE32(x) + b
    ensures U32At(d, |a|, x)
  {
    WordIn(d, a, LE32(x), b, 0);
    WordIsUnsigned(LE32(x), 0);
    assert LE32(x)[0..4] == LE32(x);
  }

  /** Appending bytes keeps a UInt32 where it was. */
  lemma U32AtKept(d: seq<byte>, e: seq<byte>, at: nat, v: int)
    requires U32At(d, at, v)
    ensures U32At(d + e, at, v)
  {
    WordIn(d + e, [], d, e, at);
  }

  /** Prepending bytes moves a UInt32 along by their length. */
  lemma U32AtShift(d: seq<byte>, a: seq<byte>, w: seq<byte>, at: nat, v: int)
    requires d == a + w && U32At(w, at, v)
    ensures U32At(d, |a| + at, v)
  {
    WordIn(d, a, w, [], at);
  }

  /** From byte offset `at` on, d holds the UInt32 values vs one after the other. */
  predicate U32sAt(d: seq<byte>, at: nat, vs: seq<int>)
  {
    forall k :: 0 <= k < |vs| ==> U32At(d, at + 4 * k, vs[k])
  }

  lemma U32sAtOf(a: seq<byte>, vs: seq<nat>, b: seq<byte>)
    requires forall i :: 0 <= i < |vs| ==> vs[i] < MAX32
    ensures U32sAt(a + U32List(vs) + b, |a|, vs)
  {
    forall k | 0 <= k < |vs| ensures U32At(a + U32List(vs) + b, |a| + 4 * k, vs[k]) {
      U32sAtEach(a, vs, b, k);
    }
  }

  lemma U32sAtEach(a: seq<byte>, vs: seq<nat>, b: seq<byte>, k: nat)
    requires forall i :: 0 <= i < |vs| ==> vs[i] < MAX32
    requires k < |vs|
    ensures U32At(a + U32List(vs) + b, |a| + 4 * k, vs[k])
  {
    U32ListWord(vs, k);
    WordIn(a + U32List(vs) + b, a, U32List(vs), b, 4 * k);
  }

  /** A UInt32 on its own reads back as its value. */
  lemma LE32Word(x: u32)
    ensures Word(LE32(x), 0) == x
  {
    WordIsUnsigned(LE32(x), 0);
    assert LE32(x)[0..4] == LE32(x);
  }

  /** The k-th word of a packed list is the k-th value. */
  lemma {:induction false} U32ListWord(xs: seq<nat>, k: nat)
    requires forall i :: 0 <= i < |xs| ==> xs[i] < MAX32
    requires k < |xs|
    ensures Word(U32List(xs), 4 * k) == xs[k]
  {
    if k == 0 {
      WordIn(U32List(xs), [], LE32(xs[0]), U32List(xs[1..]), 0);
      LE32Word(xs[0]);
    } else {
      U32ListWord(xs[1..], k - 1);
      WordIn(U32List(xs), LE32(xs[0]), U32List(xs[1..]), [], 4 * (k - 1));
    }
  }

  lemma U32sAtMoved(a: seq<byte>, w: seq<byte>, at: nat, vs: seq<int>)
    requires U32sAt(w, at, vs)
    ensures U32sAt(a + w, |a| + at, vs)
  {
    forall k | 0 <= k < |vs| ensures U32At(a + w, |a| + at + 4 * k, vs[k]) {
      U32AtShift(a + w, a, w, at + 4 * k, vs[k]);
    }
  }

  lemma U32sAtKept(d: seq<byte>, e: seq<byte>, at: nat, vs: seq<int>)
    requires U32sAt(d, at, vs)
    ensures U32sAt(d + e, at, vs)
  {
    forall k | 0 <= k < |vs| ensures U32At(d + e, at + 4 * k, vs[k]) {
      U32AtKept(d, e, at + 4 * k, vs[k]);
    }
  }

  /** From byte offset `at` on, the k-th UInt32 of d is the id of rs[k]. */
  predicate IdsAt(d: seq<byte>, at: nat, rs: seq<Option<Ref>>, ids: IdMap)
  {
    forall k :: 0 <= k < |rs| ==> U32At(d, at + 4 * k, GetId(rs[k], ids))
  }

  lemma IdsAtOf(d: seq<byte>, a: seq<byte>, rs: seq<Option<Ref>>, ids: IdMap, b: seq<byte>)
    requires IdsFit(ids) && d == a + RefList(rs, ids) + b
    ensures IdsAt(d, |a|, rs, ids)
  {
    forall k | 0 <= k < |rs| ensures U32At(d, |a| + 4 * k, GetId(rs[k], ids)) {
      RefListAt(rs, ids, k);
      WordIsUnsigned(RefList(rs, ids), 4 * k);
      WordIn(d, a, RefList(rs, ids), b, 4 * k);
    }
  }

  lemma IdsAtEnd(a: seq<byte>, rs: seq<Option<Ref>>, ids: IdMap)
    requires IdsFit(ids)
    ensures IdsAt(a + RefList(rs, ids), |a|, rs, ids)
  {
    IdsAtOf(a + RefList(rs, ids), a, rs, ids, []);
  }

  lemma IdsAtKept(d: seq<byte>, e: seq<byte>, at: nat, rs: seq<Option<Ref>>, ids: IdMap)
    requires IdsAt(d, at, rs, ids)
    ensures IdsAt(d + e, at, rs, ids)
  {
    forall k | 0 <= k < |rs| ensures U32At(d + e, at + 4 * k, GetId(rs[k], ids)) {
      U32AtKept(d, e, at + 4 * k, GetId(rs[k], ids));
    }
  }

  lemma IdsAtMoved(a: seq<byte>, w: seq<byte>, at: nat, rs: seq<Option<Ref>>, ids: IdMap)
    requires IdsAt(w, at, rs, ids)
    ensures IdsAt(a + w, |a| + at, rs, ids)
  {
    forall k | 0 <= k < |rs| ensures U32At(a + w, |a| + at + 4 * k, GetId(rs[k], ids)) {
      U32AtShift(a + w, a, w, at + 4 * k, GetId(rs[k], ids));
    }
  }

  // ----- M3GObject3D, M3GTransformable, M3GNode, M3GGroup, M3GMesh -----

  /** The number of animation tracks fits its UInt32 count. */
  predicate Object3DPackable(b: Object3DBase)
  {
    |b.animationTracks| < MAX32
  }

  function Object3DLength(b: Object3DBase): nat
  {
    12 + (if |b.animationTracks| > 0 then 4 * |b.animationTracks| else 0)
  }

  /** userID, the track count, one id per track, userParameterCount. */
  function Object3DData(b: Object3DBase, ids: IdMap): (r: seq<byte>)
    requires IdsFit(ids) && Object3DPackable(b)
    ensures |r| == Object3DLength(b)
    ensures Unsigned(r[0..4]) == b.userID
    ensures Unsigned(r[4..8]) == |b.animationTracks|
    ensures r[8 .. 8 + 4 * |b.animationTracks|] == RefList(b.animationTracks, ids)
  {
    var tracks := RefList(b.animationTracks, ids);
    var r := LE32(b.userID) + (LE32(|b.animationTracks|) + (tracks + LE32(b.userParameterCount)));
    assert r[0..4] == LE32(b.userID);
    assert r[4..8] == LE32(|b.animationTracks|);
    assert r[8 .. 8 + |tracks|] == tracks;
    r
  }

  function TransformableLength(t: TransformableBase): nat
  {
    Object3DLength(t.object3D) + 1 + (if t.hasComponentTransform then 40 else 0)
      + 1 + (if t.hasGeneralTransform then 64 else 0)
  }

  /** The component transform is written only when flagged, and so is the
      general transform. */
  function TransformableData(t: TransformableBase, ids: IdMap): (r: seq<byte>)
    requires IdsFit(ids) && Object3DPackable(t.object3D)
    ensures |r| == TransformableLength(t)
    ensures r[..Object3DLength(t.object3D)] == Object3DData(t.object3D, ids)
  {
    var base := Object3DData(t.object3D, ids);
    var component :=
      if t.hasComponentTransform
      then Vector3DData(t.translation) + Vector3DData(t.scale) + t.orientationAngle + Vector3DData(t.orientationAxis)
      else [];
    var general := if t.hasGeneralTransform then F32s(t.transform) else [];
    var fields := [Bool(t.hasComponentTransform)] + component + [Bool(t.hasGeneralTransform)] + general;
    PrefixKept(base, fields, |base|);
    base + fields
  }

  function NodeLength(n: NodeBase): nat
  {
    TransformableLength(n.transformable) + 8 + (if n.hasAlignment then 10 else 0)
  }

  /** The references a node writes when it has alignment: the zReference
      id 10 bytes after the Transformable fields, then the yReference id. */
  predicate NodeRefs(d: seq<byte>, n: NodeBase, ids: IdMap)
  {
    var at := TransformableLength(n.transformable) + 10;
    n.hasAlignment ==> U32At(d, at, GetId(n.zReference, ids)) && U32At(d, at + 4, GetId(n.yReference, ids))
  }

  /** The alignment targets and references are written only when flagged. */
  function NodeData(n: NodeBase, ids: IdMap): (r: seq<byte>)
    requires IdsFit(ids) && Object3DPackable(n.transformable.object3D)
    ensures |r| == NodeLength(n)
    ensures r[..Object3DLength(n.transformable.object3D)] == Object3DData(n.transformable.object3D, ids)
    ensures NodeRefs(r, n, ids)
  {
    var base := TransformableData(n.transformable, ids);
    var z, y := GetId(n.zReference, ids), GetId(n.yReference, ids);
    GetIdFits(n.zReference, ids);
    GetIdFits(n.yReference, ids);
    var head := [Bool(n.enableRendering), Bool(n.enablePicking), n.alphaFactor] + LE32(n.scope)
      + [Bool(n.hasAlignment)];
    var alignment := if n.hasAlignment then [n.zTarget, n.yTarget] + LE32(z) + LE32(y) else [];
    PrefixKept(base, head + alignment, Object3DLength(n.transformable.object3D));
    AlignmentAt(base + head, TransformableLength(n.transformable) + 8, n.hasAlignment, n.zTarget, n.yTarget, z, y);
    assert base + (head + alignment) == (base + head) + alignment;
    base + (head + alignment)
  }

  /** Where the two alignment references land behind the fields before them. */
  lemma AlignmentAt(front: seq<byte>, at: nat, flag: bool, zt: byte, yt: byte, z: u32, y: u32)
    requires |front| == at
    ensures var r := front + (if flag then [zt, yt] + LE32(z) + LE32(y) else []);
      flag ==> U32At(r, at + 2, z) && U32At(r, at + 6, y)
  {
    if flag {
      var r := front + ([zt, yt] + LE32(z) + LE32(y));
      assert r == (front + [zt, yt]) + LE32(z) + LE32(y);
      U32AtOf(r, front + [zt, yt], z, LE32(y));
      assert r == (front + [zt, yt] + LE32(z)) + LE32(y) + [];
      U32AtOf(r, front + [zt, yt] + LE32(z), y, []);
    }
  }

  /** Appending bytes keeps a node's references where they were. */
  lemma NodeRefsKept(d: seq<byte>, e: seq<byte>, n: NodeBase, ids: IdMap)
    requires NodeRefs(d, n, ids)
    ensures NodeRefs(d + e, n, ids)
  {
    var at := TransformableLength(n.transformable) + 10;
    if n.hasAlignment {
      U32AtKept(d, e, at, GetId(n.zReference, ids));
      U32AtKept(d, e, at + 4, GetId(n.yReference, ids));
    }
  }

  function GroupLength(g: GroupBase): nat
  {
    NodeLength(g.node) + 4 * (|g.children| + 1)
  }

  /** The references a group writes: those of its node, then right after the
      node fields the child count and the id of each child in order. */
  predicate GroupRefs(d: seq<byte>, g: GroupBase, ids: IdMap)
  {
    NodeRefs(d, g.node, ids) && U32At(d, NodeLength(g.node), |g.children|)
    && IdsAt(d, NodeLength(g.node) + 4, SomeAll(g.children), ids)
  }

  /** The child count, then one id per child. */
  function GroupData(g: GroupBase, ids: IdMap): (r: seq<byte>)
    requires IdsFit(ids) && Object3DPackable(g.node.transformable.object3D) && |g.children| < MAX32
    ensures |r| == GroupLength(g)
    ensures r[..Object3DLength(g.node.transformable.object3D)] == Object3DData(g.node.transformable.object3D, ids)
    ensures GroupRefs(r, g, ids)
  {
    var base := NodeData(g.node, ids);
    var children := RefList(SomeAll(g.children), ids);
    var fields := LE32(|g.children|) + children;
    PrefixKept(base, fields, Object3DLength(g.node.transformable.object3D));
    NodeRefsKept(base, fields, g.node, ids);
    var r := base + fields;
    U32AtOf(r, base, |g.children|, children);
    IdsAtOf(r, base + LE32(|g.children|), SomeAll(g.children), ids, []);
    assert NodeRefs(r, g.node, ids);
    assert U32At(r, NodeLength(g.node), |g.children|);
    r
  }

  /** Appending bytes keeps a group's references where they were. */
  lemma GroupRefsKept(d: seq<byte>, e: seq<byte>, g: GroupBase, ids: IdMap)
    requires GroupRefs(d, g, ids)
    ensures GroupRefs(d + e, g, ids)
  {
    NodeRefsKept(d, e, g.node, ids);
    U32AtKept(d, e, NodeLength(g.node), |g.children|);
    IdsAtKept(d, e, NodeLength(g.node) + 4, SomeAll(g.children), ids);
  }

  /** The submesh ids in writing order: index buffer k's id, then
      appearance k's id. */
  function SubmeshIds(indexBuffer: seq<Option<Ref>>, appearance: seq<Option<Ref>>, ids: IdMap): (r: seq<nat>)
    requires IdsFit(ids) && |appearance| >= |indexBuffer|
    ensures |r| == 2 * |indexBuffer|
    ensures forall i :: 0 <= i < |r| ==> r[i] < MAX32
  {
    if indexBuffer == [] then []
    else
      GetIdFits(indexBuffer[0], ids);
      GetIdFits(appearance[0], ids);
      [GetId(indexBuffer[0], ids), GetId(appearance[0], ids)]
        + SubmeshIds(indexBuffer[1..], appearance[1..], ids)
  }

  /** Entries 2k and 2k + 1 are submesh k's index buffer and appearance. */
  lemma {:induction false} SubmeshIdsAt(indexBuffer: seq<Option<Ref>>, appearance: seq<Option<Ref>>, ids: IdMap, k: nat)
    requires IdsFit(ids) && |appearance| >= |indexBuffer| && k < |indexBuffer|
    ensures SubmeshIds(indexBuffer, appearance, ids)[2 * k] == GetId(indexBuffer[k], ids)
    ensures SubmeshIds(indexBuffer, appearance, ids)[2 * k + 1] == GetId(appearance[k], ids)
  {
    if k > 0 {
      SubmeshIdsAt(indexBuffer[1..], appearance[1..], ids, k - 1);
    }
  }

  /** One (index buffer, appearance) id pair per submesh. */
  function SubmeshData(indexBuffer: seq<Option<Ref>>, appearance: seq<Option<Ref>>, ids: IdMap): (r: seq<byte>)
    requires IdsFit(ids) && |appearance| >= |indexBuffer|
    ensures |r| == 8 * |indexBuffer|
  {
    U32List(SubmeshIds(indexBuffer, appearance, ids))
  }

  /** Pair k of the submesh list holds the id of index buffer k and then the
      id of appearance k. */
  lemma SubmeshAt(indexBuffer: seq<Option<Ref>>, appearance: seq<Option<Ref>>, ids: IdMap, k: nat)
    requires IdsFit(ids) && |appearance| >= |indexBuffer| && k < |indexBuffer|
    ensures U32At(SubmeshData(indexBuffer, appearance, ids), 8 * k, GetId(indexBuffer[k], ids))
    ensures U32At(SubmeshData(indexBuffer, appearance, ids), 8 * k + 4, GetId(appearance[k], ids))
  {
    var xs := SubmeshIds(indexBuffer, appearance, ids);
    SubmeshIdsAt(indexBuffer, appearance, ids, k);
    U32ListWord(xs, 2 * k);
    U32ListWord(xs, 2 * k + 1);
  }

  function MeshLength(m: MeshBase): nat
  {
    NodeLength(m.node) + 8 + 8 * |m.indexBuffer|
  }

  /** The references a mesh writes: those of its node, then right after the
      node fields the vertex buffer id, the submesh count and, for each
      submesh k, the id of index buffer k and of appearance k. */
  predicate MeshRefsWritten(d: seq<byte>, m: MeshBase, ids: IdMap)
  {
    var at := NodeLength(m.node);
    NodeRefs(d, m.node, ids) && U32At(d, at, GetId(m.vertexBuffer, ids)) && U32At(d, at + 4, |m.indexBuffer|)
    && |m.appearance| >= |m.indexBuffer| && SubmeshRefs(d, at, m, ids)
  }

  /** Submesh k's index buffer and appearance ids sit 8 + 8 * k and
      12 + 8 * k bytes past `at`. */
  predicate SubmeshRefs(d: seq<byte>, at: nat, m: MeshBase, ids: IdMap)
    requires |m.appearance| >= |m.indexBuffer|
  {
    forall k :: 0 <= k < |m.indexBuffer| ==>
      U32At(d, at + 8 + 8 * k, GetId(m.indexBuffer[k], ids))
      && U32At(d, at + 12 + 8 * k, GetId(m.appearance[k], ids))
  }

  /** The vertex buffer id, the submesh count and the submesh pairs. None when
      an index buffer has no appearance at its position (`appearance[i]`
      raises IndexError); surplus appearances are not written. */
  function MeshData(m: MeshBase, ids: IdMap): (r: Option<seq<byte>>)
    requires IdsFit(ids) && Object3DPackable(m.node.transformable.object3D) && |m.indexBuffer| < MAX32
    ensures r.Some? <==> |m.appearance| >= |m.indexBuffer|
    ensures r.Some? ==> |r.value| == MeshLength(m)
    ensures r.Some? ==>
      r.value[..Object3DLength(m.node.transformable.object3D)] == Object3DData(m.node.transformable.object3D, ids)
    ensures r.Some? ==> MeshRefsWritten(r.value, m, ids)
  {
    if |m.appearance| < |m.indexBuffer| then None
    else
      var base := NodeData(m.node, ids);
      var fields := MeshFields(m, ids);
      PrefixKept(base, fields, Object3DLength(m.node.transformable.object3D));
      MeshRefsOf(m, ids);
      Some(base + fields)
  }

  /** The fields a mesh adds to its node: the vertex buffer id, the submesh
      count and the submesh pairs. */
  function MeshFields(m: MeshBase, ids: IdMap): (r: seq<byte>)
    requires IdsFit(ids) && |m.appearance| >= |m.indexBuffer| && |m.indexBuffer| < MAX32
    ensures |r| == 8 + 8 * |m.indexBuffer|
  {
    GetIdFits(m.vertexBuffer, ids);
    LE32(GetId(m.vertexBuffer, ids)) + LE32(|m.indexBuffer|) + SubmeshData(m.indexBuffer, m.appearance, ids)
  }

  lemma MeshRefsOf(m: MeshBase, ids: IdMap)
    requires IdsFit(ids) && Object3DPackable(m.node.transformable.object3D) && |m.indexBuffer| < MAX32
    requires |m.appearance| >= |m.indexBuffer|
    ensures MeshRefsWritten(NodeData(m.node, ids) + MeshFields(m, ids), m, ids)
  {
    NodeRefsKept(NodeData(m.node, ids), MeshFields(m, ids), m.node, ids);
    MeshWordsAt(NodeData(m.node, ids), NodeLength(m.node), m, ids);
    SubmeshesAt(NodeData(m.node, ids), NodeLength(m.node), m, ids);
  }

  /** Behind any base, the vertex buffer id and the submesh count open the
      mesh fields. */
  lemma MeshWordsAt(base: seq<byte>, at: nat, m: MeshBase, ids: IdMap)
    requires IdsFit(ids) && |m.appearance| >= |m.indexBuffer| && |m.indexBuffer| < MAX32 && |base| == at
    ensures U32At(base + MeshFields(m, ids), at, GetId(m.vertexBuffer, ids))
    ensures U32At(base + MeshFields(m, ids), at + 4, |m.indexBuffer|)
  {
    var vb := GetId(m.vertexBuffer, ids);
    GetIdFits(m.vertexBuffer, ids);
    var submeshes := SubmeshData(m.indexBuffer, m.appearance, ids);
    assert base + MeshFields(m, ids) == base + LE32(vb) + (LE32(|m.indexBuffer|) + submeshes);
    U32AtOf(base + MeshFields(m, ids), base, vb, LE32(|m.indexBuffer|) + submeshes);
    assert base + MeshFields(m, ids) == (base + LE32(vb)) + LE32(|m.indexBuffer|) + submeshes;
    U32AtOf(base + MeshFields(m, ids), base + LE32(vb), |m.indexBuffer|, submeshes);
  }

  /** Behind any base, submesh pair k sits 8 + 8 * k bytes into the mesh
      fields. */
  lemma SubmeshesAt(base: seq<byte>, at: nat, m: MeshBase, ids: IdMap)
    requires IdsFit(ids) && |m.appearance| >= |m.indexBuffer| && |m.indexBuffer| < MAX32 && |base| == at
    ensures SubmeshRefs(base + MeshFields(m, ids), at, m, ids)
  {
    var d := base + MeshFields(m, ids);
    var head := d[..at + 8];
    assert d == head + SubmeshData(m.indexBuffer, m.appearance, ids);
    forall k | 0 <= k < |m.indexBuffer|
      ensures U32At(d, at + 8 + 8 * k, GetId(m.indexBuffer[k], ids))
      ensures U32At(d, at + 12 + 8 * k, GetId(m.appearance[k], ids))
    {
      SubmeshPairAt(head, at, m, ids, k);
    }
  }

  /** Behind a head of `at + 8` bytes, submesh pair k sits 8 + 8 * k bytes
      past `at`. */
  lemma SubmeshPairAt(head: seq<byte>, at: nat, m: MeshBase, ids: IdMap, k: nat)
    requires IdsFit(ids) && |m.appearance| >= |m.indexBuffer| && |head| == at + 8 && k < |m.indexBuffer|
    ensures U32At(head + SubmeshData(m.indexBuffer, m.appearance, ids), at + 8 + 8 * k, GetId(m.indexBuffer[k], ids))
    ensures U32At(head + SubmeshData(m.indexBuffer, m.appearance, ids), at + 12 + 8 * k, GetId(m.appearance[k], ids))
  {
    var submeshes := SubmeshData(m.indexBuffer, m.appearance, ids);
    SubmeshAt(m.indexBuffer, m.appearance, ids, k);
    U32AtShift(head + submeshes, head, submeshes, 8 * k, GetId(m.indexBuffer[k], ids));
    U32AtShift(head + submeshes, head, submeshes, 8 * k + 4, GetId(m.appearance[k], ids));
  }

  /** Appending bytes keeps a mesh's references where they were. */
  lemma MeshRefsKept(d: seq<byte>, e: seq<byte>, m: MeshBase, ids: IdMap)
    requires MeshRefsWritten(d, m, ids)
    ensures MeshRefsWritten(d + e, m, ids)
  {
    var at := NodeLength(m.node);
    NodeRefsKept(d, e, m.node, ids);
    U32AtKept(d, e, at, GetId(m.vertexBuffer, ids));
    U32AtKept(d, e, at + 4, |m.indexBuffer|);
    forall k | 0 <= k < |m.indexBuffer|
      ensures U32At(d + e, at + 8 + 8 * k, GetId(m.indexBuffer[k], ids))
      ensures U32At(d + e, at + 12 + 8 * k, GetId(m.appearance[k], ids))
    {
      U32AtKept(d, e, at + 8 + 8 * k, GetId(m.indexBuffer[k], ids));
      U32AtKept(d, e, at + 12 + 8 * k, GetId(m.appearance[k], ids));
    }
  }

  // ----- M3GSkinnedMesh -----

  /** The number of transform references over all bones. */
  function ReferenceCount(bones: seq<BoneBinding>): nat
  {
    if bones == [] then 0 else |bones[0].references| + ReferenceCount(bones[1..])
  }

  /** Every bone reference's first vertex and vertex count fit a UInt32. */
  predicate ReferencesFit(refs: seq<BoneReference>)
  {
    forall i :: 0 <= i < |refs| ==>
      0 <= refs[i].firstVertex < MAX32 && 0 <= refs[i].vertexCount < MAX32
  }

  predicate BonesPackable(bones: seq<BoneBinding>)
  {
    ReferenceCount(bones) < MAX32 && forall i :: 0 <= i < |bones| ==> ReferencesFit(bones[i].references)
  }

  /** The transform references of one bone: the bone's node id, the run, the weight. */
  function BoneReferencesData(node: u32, weight: i32, refs: seq<BoneReference>): (r: seq<byte>)
    requires ReferencesFit(refs)
    ensures |r| == 16 * |refs|
  {
    if refs == [] then []
    else
      LE32(node) + LE32(refs[0].firstVertex) + LE32(refs[0].vertexCount) + I32(weight)
        + BoneReferencesData(node, weight, refs[1..])
  }

  /** One transform reference as written from byte offset `at` on: the node
      id, the first vertex, the vertex count and the weight (an Int32, so
      the UInt32 with its bytes). */
  predicate BoneEntryAt(d: seq<byte>, at: nat, node: nat, weight: int, br: BoneReference)
  {
    U32sAt(d, at, [node, br.firstVertex, br.vertexCount, AsU32(weight)])
  }

  lemma BoneEntryOf(d: seq<byte>, node: u32, weight: i32, br: BoneReference, rest: seq<byte>)
    requires 0 <= br.firstVertex < MAX32 && 0 <= br.vertexCount < MAX32
    requires d == LE32(node) + LE32(br.firstVertex) + LE32(br.vertexCount) + I32(weight) + rest
    ensures BoneEntryAt(d, 0, node, weight, br)
  {
    var vs := [node, br.firstVertex, br.vertexCount, AsU32(weight)];
    I32AsLE32(weight);
    var a := LE32(node);
    var b := a + LE32(br.firstVertex);
    var c := b + LE32(br.vertexCount);
    U32AtOf(d, [], node, LE32(br.firstVertex) + LE32(br.vertexCount) + I32(weight) + rest);
    U32AtOf(d, a, br.firstVertex, LE32(br.vertexCount) + I32(weight) + rest);
    U32AtOf(d, b, br.vertexCount, I32(weight) + rest);
    U32AtOf(d, c, AsU32(weight), rest);
    assert forall k :: 0 <= k < 4 ==> U32At(d, 4 * k, vs[k]);
  }

  /** A bone entry keeps its place behind any prefix, shifted by the
      prefix's length. */
  lemma BoneEntryMoved(a: seq<byte>, w: seq<byte>, at: nat, to: nat, node: nat, weight: int, br: BoneReference)
    requires BoneEntryAt(w, at, node, weight, br) && to == |a| + at
    ensures BoneEntryAt(a + w, to, node, weight, br)
  {
    U32sAtMoved(a, w, at, [node, br.firstVertex, br.vertexCount, AsU32(weight)]);
  }

  /** A bone entry keeps its place when bytes are appended. */
  lemma BoneEntryKept(d: seq<byte>, e: seq<byte>, at: nat, node: nat, weight: int, br: BoneReference)
    requires BoneEntryAt(d, at, node, weight, br)
    ensures BoneEntryAt(d + e, at, node, weight, br)
  {
    U32sAtKept(d, e, at, [node, br.firstVertex, br.vertexCount, AsU32(weight)]);
  }

  /** Entry j of one bone's references is written 16 * j bytes in. */
  lemma {:induction false} BoneReferencesAt(node: u32, weight: i32, refs: seq<BoneReference>, j: nat)
    requires ReferencesFit(refs) && j < |refs|
    ensures BoneEntryAt(BoneReferencesData(node, weight, refs), 16 * j, node, weight, refs[j])
  {
    var d := BoneReferencesData(node, weight, refs);
    var first := LE32(node) + LE32(refs[0].firstVertex) + LE32(refs[0].vertexCount) + I32(weight);
    var rest := BoneReferencesData(node, weight, refs[1..]);
    assert d == first + rest;
    if j == 0 {
      BoneEntryOf(d, node, weight, refs[0], rest);
    } else {
      BoneReferencesAt(node, weight, refs[1..], j - 1);
      assert refs[1..][j - 1] == refs[j];
      BoneEntryMoved(first, rest, 16 * (j - 1), 16 * j, node, weight, refs[j]);
    }
  }

  function BonesData(bones: seq<BoneBinding>, ids: IdMap): (r: seq<byte>)
    requires IdsFit(ids)
    requires forall i :: 0 <= i < |bones| ==> ReferencesFit(bones[i].references)
    ensures |r| == 16 * ReferenceCount(bones)
  {
    if bones == [] then []
    else
      BoneReferencesData(GetId(bones[0].transformNode, ids), bones[0].weight, bones[0].references)
        + BonesData(bones[1..], ids)
  }

  /** Reference j of bone i is written after the references of the bones
      before it: at 16 * (ReferenceCount(bones[..i]) + j), with the id of the
      bone's transform node and the bone's weight. */
  lemma {:induction false} BonesDataAt(bones: seq<BoneBinding>, ids: IdMap, i: nat, j: nat)
    requires IdsFit(ids) && forall i :: 0 <= i < |bones| ==> ReferencesFit(bones[i].references)
    requires i < |bones| && j < |bones[i].references|
    ensures BoneEntryAt(BonesData(bones, ids), 16 * (ReferenceCount(bones[..i]) + j),
      GetId(bones[i].transformNode, ids), bones[i].weight, bones[i].references[j])
  {
    if i == 0 {
      assert bones[..i] == [];
      BonesFirstAt(bones, ids, j);
    } else {
      BonesDataAt(bones[1..], ids, i - 1, j);
      ReferenceCountStep(bones, i);
      BonesRestAt(bones, ids, 16 * (ReferenceCount(bones[1..][..i - 1]) + j), 16 * (ReferenceCount(bones[..i]) + j),
        GetId(bones[i].transformNode, ids), bones[i].weight, bones[i].references[j]);
    }
  }

  lemma BonesFirstAt(bones: seq<BoneBinding>, ids: IdMap, j: nat)
    requires IdsFit(ids) && forall i :: 0 <= i < |bones| ==> ReferencesFit(bones[i].references)
    requires 0 < |bones| && j < |bones[0].references|
    ensures BoneEntryAt(BonesData(bones, ids), 16 * j,
      GetId(bones[0].transformNode, ids), bones[0].weight, bones[0].references[j])
  {
    GetIdFits(bones[0].transformNode, ids);
    var node := GetId(bones[0].transformNode, ids);
    var first := BoneReferencesData(node, bones[0].weight, bones[0].references);
    BoneReferencesAt(node, bones[0].weight, bones[0].references, j);
    BoneEntryKept(first, BonesData(bones[1..], ids), 16 * j, node, bones[0].weight, bones[0].references[j]);
  }

  lemma BonesRestAt(bones: seq<BoneBinding>, ids: IdMap, at: nat, to: nat, node: nat, weight: int, br: BoneReference)
    requires IdsFit(ids) && forall i :: 0 <= i < |bones| ==> ReferencesFit(bones[i].references)
    requires 0 < |bones| && BoneEntryAt(BonesData(bones[1..], ids), at, node, weight, br)
    requires to == 16 * |bones[0].references| + at
    ensures BoneEntryAt(BonesData(bones, ids), to, node, weight, br)
  {
    GetIdFits(bones[0].transformNode, ids);
    var first := BoneReferencesData(GetId(bones[0].transformNode, ids), bones[0].weight, bones[0].references);
    BoneEntryMoved(first, BonesData(bones[1..], ids), at, to, node, weight, br);
  }

  /** The references before bone i are bone 0's and those before bone i-1 of the rest. */
  lemma ReferenceCountStep(bones: seq<BoneBinding>, i: nat)
    requires 0 < i <= |bones|
    ensures ReferenceCount(bones[..i]) == |bones[0].references| + ReferenceCount(bones[1..][..i - 1])
  {
    assert bones[..i][1..] == bones[1..][..i - 1];
  }

  // ----- Classes with element lists -----

  /** The bytes the components take: one each as `b`, two each as `h`. */
  function ComponentsLength(componentSize: byte, count: nat): nat
  {
    if componentSize == 1 then count else 2 * count
  }

  /** Every component fits the array type the vertex array holds it in. */
  predicate ComponentsFit(components: seq<int>, componentSize: byte)
  {
    forall i :: 0 <= i < |components| ==>
      if componentSize == 1 then -0x80 <= components[i] < 0x80 else -0x8000 <= components[i] < 0x8000
  }

  function ComponentsData(components: seq<int>, componentSize: byte): (r: seq<byte>)
    requires ComponentsFit(components, componentSize)
    ensures |r| == ComponentsLength(componentSize, |components|)
  {
    if components == [] then []
    else
      (if componentSize == 1 then I8(components[0]) else I16(components[0]))
        + ComponentsData(components[1..], componentSize)
  }

  /** r names a vertex array of the store. */
  predicate IsVertexArray(r: Option<Ref>, s: Store)
  {
    r.Some? && r.value in s && s[r.value].VertexArray?
  }

  /** Per texture coordinate array: its id, its bias and its scale. None when
      an entry is not a vertex array (reading its bias raises AttributeError). */
  function TexCoordData(texCoordArrays: seq<Option<Ref>>, s: Store, ids: IdMap): (r: Option<seq<byte>>)
    requires IdsFit(ids)
    ensures r.Some? <==> forall i :: 0 <= i < |texCoordArrays| ==> IsVertexArray(texCoordArrays[i], s)
    ensures r.Some? ==> |r.value| == 20 * |texCoordArrays|
  {
    if texCoordArrays == [] then Some([])
    else if !IsVertexArray(texCoordArrays[0], s) then None
    else
      var va := s[texCoordArrays[0].value];
      match TexCoordData(texCoordArrays[1..], s, ids)
      case None =>
        assert exists i :: 0 <= i < |texCoordArrays| - 1 && !IsVertexArray(texCoordArrays[1..][i], s);
        None
      case Some(rest) =>
        assert forall i :: 0 < i < |texCoordArrays| ==> texCoordArrays[i] == texCoordArrays[1..][i - 1];
        Some(LE32(GetId(texCoordArrays[0], ids)) + F32s(va.bias) + va.scale + rest)
  }

  /** Entry k of the texture coordinate part opens with the id of array k. */
  lemma {:induction false} TexCoordAt(texCoordArrays: seq<Option<Ref>>, s: Store, ids: IdMap, k: nat)
    requires IdsFit(ids) && TexCoordData(texCoordArrays, s, ids).Some? && k < |texCoordArrays|
    ensures U32At(TexCoordData(texCoordArrays, s, ids).value, 20 * k, GetId(texCoordArrays[k], ids))
  {
    var d := TexCoordData(texCoordArrays, s, ids).value;
    var va := s[texCoordArrays[0].value];
    var rest := TexCoordData(texCoordArrays[1..], s, ids).value;
    var first := LE32(GetId(texCoordArrays[0], ids)) + F32s(va.bias) + va.scale;
    assert d == first + rest;
    GetIdFits(texCoordArrays[0], ids);
    if k == 0 {
      U32AtOf(d, [], GetId(texCoordArrays[0], ids), F32s(va.bias) + va.scale + rest);
    } else {
      TexCoordAt(texCoordArrays[1..], s, ids, k - 1);
      U32AtShift(d, first, rest, 20 * (k - 1), GetId(texCoordArrays[k], ids));
    }
  }

  /** Every keyframe below keyframeCount has a time and componentCount values. */
  predicate KeyframesPresent(keyframeCount: nat, componentCount: nat, time: seq<i32>, vectorValue: seq<seq<F32>>)
  {
    |time| >= keyframeCount && |vectorValue| >= keyframeCount
    && forall i :: 0 <= i < keyframeCount ==> |vectorValue[i]| >= componentCount
  }

  /** The bytes n keyframes take: a time and componentCount values each. */
  function KeyframesLength(n: nat, componentCount: nat): nat
  {
    4 * n + 4 * n * componentCount
  }

  /** Keyframes 0 to n-1, each as its time followed by its componentCount values. */
  function KeyframesData(time: seq<i32>, vectorValue: seq<seq<F32>>, componentCount: nat, n: nat): (r: seq<byte>)
    requires KeyframesPresent(n, componentCount, time, vectorValue)
    ensures |r| == KeyframesLength(n, componentCount)
  {
    if n == 0 then []
    else
      var r := KeyframesData(time, vectorValue, componentCount, n - 1)
        + I32(time[n - 1]) + F32s(vectorValue[n - 1][..componentCount]);
      assert 4 * n * componentCount == 4 * (n - 1) * componentCount + 4 * componentCount;
      r
  }

  // ----- Every class -----

  /** What struct.pack needs of an object's counts and values: every list
      length and every value written as UInt32 fits, and every component fits
      the typed array that holds it. */
  predicate Packable(o: Obj)
  {
    (Object3DOf(o).Some? ==> Object3DPackable(Object3DOf(o).value))
    && match o
       case World(g, _, _) => |g.children| < MAX32
       case Group(g) => |g.children| < MAX32
       case Mesh(m) => |m.indexBuffer| < MAX32
       case SkinnedMesh(m, _, bones) => |m.indexBuffer| < MAX32 && BonesPackable(bones)
       case TriangleStripArray(_, _, indices, stripLengths) =>
         |indices| < MAX32 && |stripLengths| < MAX32
         && (forall i :: 0 <= i < |indices| ==> indices[i] < MAX32)
         && (forall i :: 0 <= i < |stripLengths| ==> stripLengths[i] < MAX32)
       case Appearance(_, _, _, _, _, _, textures) => |textures| < MAX32
       case Image2D(_, _, _, _, _, pixels) => |pixels| < MAX32
       case VertexArray(_, componentSize, _, _, components, _, _) => ComponentsFit(components, componentSize)
       case VertexBuffer(_, _, _, _, _, _, _, texCoordArrays) => |texCoordArrays| < MAX32
       case _ => true
  }

  /** The only object whose length cannot be computed: a camera with the
      generic projection, whose projection matrix is never set. */
  predicate HasLength(o: Obj)
  {
    !(o.Camera? && o.projectionType == GENERIC)
  }

  /** `getDataLength`, class by class, computed from the counts alone. */
  function GetDataLength(o: Obj): nat
    requires HasLength(o)
  {
    match o
    case HeaderObject(_, _, _, _, authoring) => 11 + StringFieldLength(authoring)
    case ExternalReference(uri) => StringFieldLength(uri)
    case World(g, _, _) => GroupLength(g) + 8
    case Group(g) => GroupLength(g)
    case Mesh(m) => MeshLength(m)
    case SkinnedMesh(m, _, bones) => MeshLength(m) + 8 + 16 * ReferenceCount(bones)
    case Camera(n, _, _, _, _, _) => NodeLength(n) + 17
    case Light(n, _, _, _, _, _, _, _, _) => NodeLength(n) + 28
    case Background(obj, _, _, _, _, _, _, _, _, _, _) => Object3DLength(obj) + 28
    case Material(obj, _, _, _, _, _, _) => Object3DLength(obj) + 18
    case PolygonMode(obj, _, _, _, _, _, _) => Object3DLength(obj) + 6
    case TriangleStripArray(obj, _, indices, stripLengths) =>
      Object3DLength(obj) + 5 + (if |indices| > 0 then 4 * |indices| else 0)
        + 4 + (if |stripLengths| > 0 then 4 * |stripLengths| else 0)
    case Appearance(obj, _, _, _, _, _, textures) =>
      Object3DLength(obj) + 21 + (if |textures| > 0 then 4 * |textures| else 0)
    case Texture2D(t, _, _, _, _, _, _, _) => TransformableLength(t) + 12
    case Image2D(obj, format, isMutable, _, _, pixels) =>
      Object3DLength(obj) + 10 + (if !isMutable then 4 + (if format == RGBA then 4 + |pixels| else 0) else 0)
    case VertexArray(obj, componentSize, _, _, components, _, _) =>
      Object3DLength(obj) + 5 + ComponentsLength(componentSize, |components|)
    case VertexBuffer(obj, _, _, _, _, _, _, texCoordArrays) => Object3DLength(obj) + 36 + 20 * |texCoordArrays|
    case KeyframeSequence(obj, _, _, _, _, _, _, keyComponentCount, keyframeCount, _, _) =>
      Object3DLength(obj) + 23 + KeyframesLength(keyframeCount, keyComponentCount)
    case AnimationController(obj, _, _, _, _, _, _) => Object3DLength(obj) + 24
    case AnimationTrack(obj, _, _, _) => Object3DLength(obj) + 12
  }

  /** The encoder does not raise on o: the condition of each class that has one. */
  predicate Encodable(o: Obj, s: Store)
  {
    match o
    case Mesh(m) => |m.appearance| >= |m.indexBuffer|
    case SkinnedMesh(m, _, _) => |m.appearance| >= |m.indexBuffer|
    case Camera(_, projectionType, _, _, _, _) => projectionType != GENERIC
    case VertexArray(_, _, componentCount, _, components, _, _) =>
      componentCount != 0 && VertexCount(components, componentCount) < 0x1_0000
    case VertexBuffer(_, _, _, _, _, _, _, texCoordArrays) =>
      forall i :: 0 <= i < |texCoordArrays| ==> IsVertexArray(texCoordArrays[i], s)
    case KeyframeSequence(_, interpolation, _, _, _, _, _, keyComponentCount, keyframeCount, time, vectorValue) =>
      interpolation.Some? && KeyframesPresent(keyframeCount, keyComponentCount, time, vectorValue)
    case _ => true
  }

  /** The contract every class encoder keeps: it fails exactly where the
      exporter raises, otherwise its data has the announced length and starts
      with the Object3D fields. */
  predicate EncodesAs(o: Obj, s: Store, ids: IdMap, r: Option<seq<byte>>)
  {
    (r.Some? <==> Encodable(o, s))
    && (r.Some? ==> HasLength(o) && |r.value| == GetDataLength(o))
    && (r.Some? && Object3DOf(o).Some? && IdsFit(ids) && Object3DPackable(Object3DOf(o).value) ==>
          |r.value| >= Object3DLength(Object3DOf(o).value)
          && r.value[..Object3DLength(Object3DOf(o).value)] == Object3DData(Object3DOf(o).value, ids))
  }

  /** An encoder that succeeds with bytes of the announced length that open
      with the Object3D fields keeps the contract. */
  lemma EncodesAsSome(o: Obj, s: Store, ids: IdMap, obj: Object3DBase, d: seq<byte>)
    requires Encodable(o, s) && HasLength(o) && |d| == GetDataLength(o)
    requires Object3DOf(o) == Some(obj) && |d| >= Object3DLength(obj)
    requires IdsFit(ids) && Object3DPackable(obj) ==> d[..Object3DLength(obj)] == Object3DData(obj, ids)
    ensures EncodesAs(o, s, ids, Some(d))
  {
  }

  // ----- One encoder per class -----

  function HeaderData(o: Obj, s: Store, ids: IdMap): (r: Option<seq<byte>>)
    requires o.HeaderObject? && IdsFit(ids) && Packable(o)
    ensures EncodesAs(o, s, ids, r)
  {
    Some([o.versionNumber.0, o.versionNumber.1, Bool(o.hasExternalReferences)]
      + LE32(o.totalFileSize) + LE32(o.approximateContentSize) + StringField(o.authoringField))
  }

  /** A header object is always packable, and its payload is its fields in order. */
  lemma HeaderDataIs(o: Obj, s: Store, ids: IdMap)
    requires o.HeaderObject? && IdsFit(ids)
    ensures Packable(o)
    ensures HeaderData(o, s, ids) == Some([o.versionNumber.0, o.versionNumber.1, Bool(o.hasExternalReferences)]
      + LE32(o.totalFileSize) + LE32(o.approximateContentSize) + StringField(o.authoringField))
  {
  }

  function ExternalReferenceData(o: Obj, s: Store, ids: IdMap): (r: Option<seq<byte>>)
    requires o.ExternalReference? && IdsFit(ids) && Packable(o)
    ensures EncodesAs(o, s, ids, r)
  {
    Some(StringField(o.uri))
  }

  function WorldData(o: Obj, s: Store, ids: IdMap): (r: Option<seq<byte>>)
    requires o.World? && IdsFit(ids) && Packable(o)
    ensures EncodesAs(o, s, ids, r)
    ensures r.Some? ==> GroupRefs(r.value, o.group, ids)
    ensures r.Some? ==> U32At(r.value, GroupLength(o.group), GetId(o.activeCamera, ids))
    ensures r.Some? ==> U32At(r.value, GroupLength(o.group) + 4, GetId(o.background, ids))
  {
    WorldClass(o, s);
    var base := GroupData(o.group, ids);
    var camera, background := GetId(o.activeCamera, ids), GetId(o.background, ids);
    GetIdFits(o.activeCamera, ids);
    GetIdFits(o.background, ids);
    var fields := LE32(camera) + LE32(background);
    PrefixKept(base, fields, Object3DLength(o.group.node.transformable.object3D));
    GroupRefsKept(base, fields, o.group, ids);
    var r := base + fields;
    U32AtOf(r, base, camera, LE32(background));
    U32AtOf(r, base + LE32(camera), background, []);
    Some(r)
  }

  /** What the class-wide predicates say of a world. */
  lemma WorldClass(o: Obj, s: Store)
    requires o.World? && Packable(o)
    ensures Object3DOf(o) == Some(o.group.node.transformable.object3D) && Object3DPackable(o.group.node.transformable.object3D)
    ensures |o.group.children| < MAX32
    ensures HasLength(o) && GetDataLength(o) == GroupLength(o.group) + 8
    ensures Encodable(o, s)
  {
  }

  function GroupObjectData(o: Obj, s: Store, ids: IdMap): (r: Option<seq<byte>>)
    requires o.Group? && IdsFit(ids) && Packable(o)
    ensures EncodesAs(o, s, ids, r)
    ensures r.Some? ==> GroupRefs(r.value, o.group, ids)
  {
    Some(GroupData(o.group, ids))
  }

  function MeshObjectData(o: Obj, s: Store, ids: IdMap): (r: Option<seq<byte>>)
    requires o.Mesh? && IdsFit(ids) && Packable(o)
    ensures EncodesAs(o, s, ids, r)
    ensures r.Some? ==> MeshRefsWritten(r.value, o.mesh, ids)
  {
    MeshClass(o, s);
    MeshData(o.mesh, ids)
  }

  /** What the class-wide predicates say of a mesh. */
  lemma MeshClass(o: Obj, s: Store)
    requires o.Mesh? && Packable(o)
    ensures Object3DOf(o) == Some(o.mesh.node.transformable.object3D) && Object3DPackable(o.mesh.node.transformable.object3D)
    ensures |o.mesh.indexBuffer| < MAX32
    ensures HasLength(o) && GetDataLength(o) == MeshLength(o.mesh)
    ensures Encodable(o, s) <==> |o.mesh.appearance| >= |o.mesh.indexBuffer|
  {
  }

  /** What a skinned mesh writes after the mesh fields: the skeleton id, the
      number of transform references over all bones, and the references bone
      by bone. */
  function SkinFields(skeleton: Option<Ref>, bones: seq<BoneBinding>, ids: IdMap): (r: seq<byte>)
    requires IdsFit(ids) && BonesPackable(bones)
    ensures |r| == 8 + 16 * ReferenceCount(bones)
    ensures U32At(r, 0, GetId(skeleton, ids)) && U32At(r, 4, ReferenceCount(bones))
    ensures r[8..] == BonesData(bones, ids)
  {
    GetIdFits(skeleton, ids);
    var r := LE32(GetId(skeleton, ids)) + (LE32(ReferenceCount(bones)) + BonesData(bones, ids));
    U32AtOf(r, [], GetId(skeleton, ids), LE32(ReferenceCount(bones)) + BonesData(bones, ids));
    U32AtOf(r, LE32(GetId(skeleton, ids)), ReferenceCount(bones), BonesData(bones, ids));
    SkinTail([], GetId(skeleton, ids), ReferenceCount(bones), BonesData(bones, ids));
    r
  }

  /** Past a base and two words, what follows. */
  lemma SkinTail(base: seq<byte>, x: u32, y: u32, w: seq<byte>)
    ensures (base + (LE32(x) + (LE32(y) + w)))[|base| + 8..] == w
  {
    assert (base + (LE32(x) + (LE32(y) + w))) == (base + LE32(x) + LE32(y)) + w;
  }

  function SkinnedMeshData(o: Obj, s: Store, ids: IdMap): (r: Option<seq<byte>>)
    requires o.SkinnedMesh? && IdsFit(ids) && Packable(o)
    ensures EncodesAs(o, s, ids, r)
    ensures r.Some? ==> MeshRefsWritten(r.value, o.mesh, ids)
    ensures r.Some? ==> BonesPackable(o.bones) && SkinRefs(r.value, MeshLength(o.mesh), o.skeleton, o.bones, ids)
  {
    SkinnedMeshClass(o, s);
    match MeshData(o.mesh, ids)
    case None => None
    case Some(base) =>
      SkinFieldsAppended(base, o.mesh, o.skeleton, o.bones, ids);
      Some(base + SkinFields(o.skeleton, o.bones, ids))
  }

  /** What the class-wide predicates say of a skinned mesh. */
  lemma SkinnedMeshClass(o: Obj, s: Store)
    requires o.SkinnedMesh? && Packable(o)
    ensures Object3DOf(o) == Some(o.mesh.node.transformable.object3D)
    ensures Object3DPackable(o.mesh.node.transformable.object3D)
    ensures |o.mesh.indexBuffer| < MAX32 && BonesPackable(o.bones)
    ensures HasLength(o) && GetDataLength(o) == MeshLength(o.mesh) + 8 + 16 * ReferenceCount(o.bones)
    ensures Encodable(o, s) <==> |o.mesh.appearance| >= |o.mesh.indexBuffer|
  {
  }

  /** Appending the skin fields to the mesh data keeps the Object3D part and
      the mesh's references, and places the skeleton id, the count and the
      bone list. */
  lemma SkinFieldsAppended(base: seq<byte>, m: MeshBase, skeleton: Option<Ref>, bones: seq<BoneBinding>, ids: IdMap)
    requires IdsFit(ids) && Object3DPackable(m.node.transformable.object3D) && |m.indexBuffer| < MAX32
    requires BonesPackable(bones) && MeshData(m, ids) == Some(base)
    ensures (base + SkinFields(skeleton, bones, ids))[..Object3DLength(m.node.transformable.object3D)]
      == Object3DData(m.node.transformable.object3D, ids)
    ensures MeshRefsWritten(base + SkinFields(skeleton, bones, ids), m, ids)
    ensures SkinRefs(base + SkinFields(skeleton, bones, ids), MeshLength(m), skeleton, bones, ids)
  {
    var fields := SkinFields(skeleton, bones, ids);
    PrefixKept(base, fields, Object3DLength(m.node.transformable.object3D));
    MeshRefsKept(base, fields, m, ids);
    SkinRefsOf(base, MeshLength(m), skeleton, bones, ids);
  }

  /** Right after the mesh fields (at), the skeleton id, the number of
      transform references and the references bone by bone (see
      SkinnedMeshBoneAt). */
  predicate SkinRefs(d: seq<byte>, at: nat, skeleton: Option<Ref>, bones: seq<BoneBinding>, ids: IdMap)
    requires IdsFit(ids) && BonesPackable(bones)
  {
    U32At(d, at, GetId(skeleton, ids)) && U32At(d, at + 4, ReferenceCount(bones))
    && at + 8 <= |d| && d[at + 8..] == BonesData(bones, ids)
  }

  lemma SkinRefsOf(base: seq<byte>, at: nat, skeleton: Option<Ref>, bones: seq<BoneBinding>, ids: IdMap)
    requires IdsFit(ids) && BonesPackable(bones) && |base| == at
    ensures SkinRefs(base + SkinFields(skeleton, bones, ids), at, skeleton, bones, ids)
  {
    var fields := SkinFields(skeleton, bones, ids);
    U32AtShift(base + fields, base, fields, 0, GetId(skeleton, ids));
    U32AtShift(base + fields, base, fields, 4, ReferenceCount(bones));
    assert (base + fields)[at + 8..] == fields[8..];
  }

  /** Reference j of bone i of a skinned mesh is written in its record with
      the id of the bone's transform node, the reference's first vertex and
      vertex count, and the bone's weight, after the references of the bones
      before it. */
  lemma SkinnedMeshBoneAt(o: Obj, s: Store, ids: IdMap, d: seq<byte>, i: nat, j: nat)
    requires o.SkinnedMesh? && IdsFit(ids) && Packable(o) && SkinnedMeshData(o, s, ids) == Some(d)
    requires i < |o.bones| && j < |o.bones[i].references|
    ensures BoneEntryAt(d, MeshLength(o.mesh) + 8 + 16 * (ReferenceCount(o.bones[..i]) + j),
      GetId(o.bones[i].transformNode, ids), o.bones[i].weight, o.bones[i].references[j])
  {
    BoneInRecord(d, MeshLength(o.mesh), o.bones, ids, i, j);
  }

  /** Reference j of bone i in a record whose bytes from len + 8 on are the
      bone list. */
  lemma BoneInRecord(d: seq<byte>, len: nat, bones: seq<BoneBinding>, ids: IdMap, i: nat, j: nat)
    requires IdsFit(ids) && BonesPackable(bones) && i < |bones| && j < |bones[i].references|
    requires len + 8 <= |d| && d[len + 8..] == BonesData(bones, ids)
    ensures BoneEntryAt(d, len + 8 + 16 * (ReferenceCount(bones[..i]) + j),
      GetId(bones[i].transformNode, ids), bones[i].weight, bones[i].references[j])
  {
    BonesDataAt(bones, ids, i, j);
    BoneEntryFrom(d, len + 8, 16 * (ReferenceCount(bones[..i]) + j), len + 8 + 16 * (ReferenceCount(bones[..i]) + j),
      GetId(bones[i].transformNode, ids), bones[i].weight, bones[i].references[j]);
  }

  /** A bone entry found in the bytes from k on sits k bytes further into
      the whole. */
  lemma BoneEntryFrom(d: seq<byte>, k: nat, at: nat, to: nat, node: nat, weight: int, br: BoneReference)
    requires k <= |d| && BoneEntryAt(d[k..], at, node, weight, br) && to == k + at
    ensures BoneEntryAt(d, to, node, weight, br)
  {
    assert d == d[..k] + d[k..];
    BoneEntryMoved(d[..k], d[k..], at, to, node, weight, br);
  }

  /** None for the generic projection: the encoder reads a projection matrix
      the camera never has (AttributeError). */
  function CameraData(o: Obj, s: Store, ids: IdMap): (r: Option<seq<byte>>)
    requires o.Camera? && IdsFit(ids) && Packable(o)
    ensures EncodesAs(o, s, ids, r)
    ensures r.Some? ==> NodeRefs(r.value, o.cameraNode, ids)
  {
    if o.projectionType == GENERIC then None
    else
      var base := NodeData(o.cameraNode, ids);
      var fields := [o.projectionType] + o.fovy + o.aspectRatio + o.near + o.far;
      PrefixKept(base, fields, Object3DLength(o.cameraNode.transformable.object3D));
      NodeRefsKept(base, fields, o.cameraNode, ids);
      Some(base + fields)
  }

  function LightData(o: Obj, s: Store, ids: IdMap): (r: Option<seq<byte>>)
    requires o.Light? && IdsFit(ids) && Packable(o)
    ensures EncodesAs(o, s, ids, r)
    ensures r.Some? ==> NodeRefs(r.value, o.lightNode, ids)
  {
    var base := NodeData(o.lightNode, ids);
    var fields := o.attenuationConstant + o.attenuationLinear + o.attenuationQuadratic + ColorRGBData(o.color)
      + [o.mode] + o.intensity + o.spotAngle + o.spotExponent;
    PrefixKept(base, fields, Object3DLength(o.lightNode.transformable.object3D));
    NodeRefsKept(base, fields, o.lightNode, ids);
    Some(base + fields)
  }

  function BackgroundData(o: Obj, s: Store, ids: IdMap): (r: Option<seq<byte>>)
    requires o.Background? && IdsFit(ids) && Packable(o)
    ensures EncodesAs(o, s, ids, r)
    ensures r.Some? ==> U32At(r.value, Object3DLength(o.object3D) + 4, GetId(o.backgroundImage, ids))
  {
    BackgroundClass(o, s);
    var base := Object3DData(o.object3D, ids);
    var image := GetId(o.backgroundImage, ids);
    GetIdFits(o.backgroundImage, ids);
    var tail := [o.backgroundImageModeX, o.backgroundImageModeY]
      + I32(o.cropX) + I32(o.cropY) + I32(o.cropWidth) + I32(o.cropHeight)
      + [Bool(o.depthClearEnabled), Bool(o.colorClearEnabled)];
    var fields := ColorRGBAData(o.backgroundColor) + LE32(image) + tail;
    PrefixKept(base, fields, |base|);
    U32AtOf(base + fields, base + ColorRGBAData(o.backgroundColor), image, tail);
    Some(base + fields)
  }

  /** What the class-wide predicates say of a background. */
  lemma BackgroundClass(o: Obj, s: Store)
    requires o.Background? && Packable(o)
    ensures Object3DOf(o) == Some(o.object3D) && Object3DPackable(o.object3D)
    ensures HasLength(o) && GetDataLength(o) == Object3DLength(o.object3D) + 28
    ensures Encodable(o, s)
  {
  }

  function MaterialData(o: Obj, s: Store, ids: IdMap): (r: Option<seq<byte>>)
    requires o.Material? && IdsFit(ids) && Packable(o)
    ensures EncodesAs(o, s, ids, r)
  {
    var base := Object3DData(o.object3D, ids);
    var fields := ColorRGBData(o.ambientColor) + ColorRGBAData(o.diffuseColor) + ColorRGBData(o.emissiveColor)
      + ColorRGBData(o.specularColor) + o.shininess + [Bool(o.vertexColorTrackingEnabled)];
    PrefixKept(base, fields, |base|);
    Some(base + fields)
  }

  function PolygonModeData(o: Obj, s: Store, ids: IdMap): (r: Option<seq<byte>>)
    requires o.PolygonMode? && IdsFit(ids) && Packable(o)
    ensures EncodesAs(o, s, ids, r)
  {
    var base := Object3DData(o.object3D, ids);
    var fields := [o.culling, o.shading, o.winding, Bool(o.twoSidedLightingEnabled),
                   Bool(o.localCameraLightingEnabled), Bool(o.perspectiveCorrectionEnabled)];
    PrefixKept(base, fields, |base|);
    Some(base + fields)
  }

  /** The encoding byte, the index count and indices, the strip count and
      strip lengths. */
  function TriangleStripArrayData(o: Obj, s: Store, ids: IdMap): (r: Option<seq<byte>>)
    requires o.TriangleStripArray? && IdsFit(ids) && Packable(o)
    ensures EncodesAs(o, s, ids, r)
    ensures r.Some? && r.value[Object3DLength(o.object3D)..] ==
      [o.encoding] + LE32(|o.indices|) + U32List(o.indices) + LE32(|o.stripLengths|) + U32List(o.stripLengths)
  {
    var base := Object3DData(o.object3D, ids);
    var fields := [o.encoding] + LE32(|o.indices|) + U32List(o.indices)
      + LE32(|o.stripLengths|) + U32List(o.stripLengths);
    PrefixKept(base, fields, |base|);
    assert (base + fields)[|base|..] == fields;
    Some(base + fields)
  }

  /** The layer, the ids of the compositing mode, fog, polygon mode and
      material, then the texture count and the id of each texture. */
  function AppearanceData(o: Obj, s: Store, ids: IdMap): (r: Option<seq<byte>>)
    requires o.Appearance? && IdsFit(ids) && Packable(o)
    ensures EncodesAs(o, s, ids, r)
    ensures r.Some? ==> U32sAt(r.value, Object3DLength(o.object3D) + 1,
      [GetId(o.compositingMode, ids), GetId(o.fog, ids), GetId(o.polygonMode, ids), GetId(o.material, ids),
       |o.textures|])
    ensures r.Some? ==> IdsAt(r.value, Object3DLength(o.object3D) + 21, o.textures, ids)
  {
    AppearanceClass(o, s);
    AppearanceEncoded(o, s, ids);
    Some(Object3DData(o.object3D, ids) + AppearanceFields(o, ids))
  }

  /** The four attribute ids and the texture count, as written. */
  function AppearanceWords(o: Obj, ids: IdMap): (r: seq<nat>)
    requires o.Appearance? && IdsFit(ids) && |o.textures| < MAX32
    ensures r == [GetId(o.compositingMode, ids), GetId(o.fog, ids), GetId(o.polygonMode, ids),
                  GetId(o.material, ids), |o.textures|]
    ensures |r| == 5 && forall i :: 0 <= i < |r| ==> r[i] < MAX32
  {
    GetIdFits(o.compositingMode, ids);
    GetIdFits(o.fog, ids);
    GetIdFits(o.polygonMode, ids);
    GetIdFits(o.material, ids);
    [GetId(o.compositingMode, ids), GetId(o.fog, ids), GetId(o.polygonMode, ids), GetId(o.material, ids),
     |o.textures|]
  }

  /** The layer, the four attribute ids, the texture count and the texture
      ids. */
  function AppearanceFields(o: Obj, ids: IdMap): (r: seq<byte>)
    requires o.Appearance? && IdsFit(ids) && |o.textures| < MAX32
    ensures |r| == 21 + 4 * |o.textures|
  {
    [o.layer] + U32List(AppearanceWords(o, ids)) + RefList(o.textures, ids)
  }

  /** The Object3D fields and the appearance fields make up the appearance's
      data. */
  lemma AppearanceEncoded(o: Obj, s: Store, ids: IdMap)
    requires o.Appearance? && IdsFit(ids) && Packable(o)
    ensures EncodesAs(o, s, ids, Some(Object3DData(o.object3D, ids) + AppearanceFields(o, ids)))
    ensures U32sAt(Object3DData(o.object3D, ids) + AppearanceFields(o, ids), Object3DLength(o.object3D) + 1,
      [GetId(o.compositingMode, ids), GetId(o.fog, ids), GetId(o.polygonMode, ids), GetId(o.material, ids),
       |o.textures|])
    ensures IdsAt(Object3DData(o.object3D, ids) + AppearanceFields(o, ids), Object3DLength(o.object3D) + 21,
      o.textures, ids)
  {
    AppearanceClass(o, s);
    var base := Object3DData(o.object3D, ids);
    PrefixKept(base, AppearanceFields(o, ids), |base|);
    AppearanceFieldsAt(base, Object3DLength(o.object3D), o.layer, AppearanceWords(o, ids), o.textures, ids);
  }

  /** What the class-wide predicates say of an appearance. */
  lemma AppearanceClass(o: Obj, s: Store)
    requires o.Appearance? && Packable(o)
    ensures Object3DOf(o) == Some(o.object3D) && Object3DPackable(o.object3D)
    ensures |o.textures| < MAX32
    ensures HasLength(o) && GetDataLength(o) == Object3DLength(o.object3D) + 21 + (if |o.textures| > 0 then 4 * |o.textures| else 0)
    ensures Encodable(o, s)
  {
  }

  /** Where AppearanceData puts the four ids, the texture count and the
      texture ids, past the Object3D part and the layer byte. */
  lemma AppearanceFieldsAt(base: seq<byte>, at: nat, layer: byte, values: seq<nat>, textures: seq<Option<Ref>>, ids: IdMap)
    requires IdsFit(ids) && |values| == 5 && (forall i :: 0 <= i < 5 ==> values[i] < MAX32) && |base| == at
    ensures U32sAt(base + ([layer] + U32List(values) + RefList(textures, ids)), at + 1, values)
    ensures IdsAt(base + ([layer] + U32List(values) + RefList(textures, ids)), at + 21, textures, ids)
  {
    var fields := [layer] + U32List(values) + RefList(textures, ids);
    U32sAtOf([layer], values, RefList(textures, ids));
    U32sAtMoved(base, fields, 1, values);
    IdsAtEnd([layer] + U32List(values), textures, ids);
    assert |[layer] + U32List(values)| == 21;
    IdsAtMoved(base, fields, 21, textures, ids);
  }

  function Texture2DData(o: Obj, s: Store, ids: IdMap): (r: Option<seq<byte>>)
    requires o.Texture2D? && IdsFit(ids) && Packable(o)
    ensures EncodesAs(o, s, ids, r)
    ensures r.Some? ==> U32At(r.value, TransformableLength(o.texTransformable), GetId(o.image, ids))
  {
    var base := TransformableData(o.texTransformable, ids);
    var image := GetId(o.image, ids);
    GetIdFits(o.image, ids);
    var tail := ColorRGBData(o.blendColor) + [o.blending, o.wrappingS, o.wrappingT, o.levelFilter, o.imageFilter];
    var fields := LE32(image) + tail;
    PrefixKept(base, fields, Object3DLength(o.texTransformable.object3D));
    U32AtOf(base + fields, base, image, tail);
    Some(base + fields)
  }

  /** An immutable image writes an empty palette and, in RGBA format only,
      its pixel count and pixel bytes, which end the record. */
  function Image2DData(o: Obj, s: Store, ids: IdMap): (r: Option<seq<byte>>)
    requires o.Image2D? && IdsFit(ids) && Packable(o)
    ensures EncodesAs(o, s, ids, r)
    ensures r.Some? && (!o.isMutable && o.format == RGBA ==> r.value[|r.value| - |o.pixels|..] == o.pixels)
  {
    Image2DClass(o, s);
    var base := Object3DData(o.object3D, ids);
    var head := [o.format, Bool(o.isMutable)] + LE32(o.width) + LE32(o.height);
    var fields :=
      if o.isMutable then head
      else if o.format != RGBA then head + LE32(0)
      else head + LE32(0) + LE32(|o.pixels|) + o.pixels;
    PrefixKept(base, fields, |base|);
    assert !o.isMutable && o.format == RGBA ==> (base + fields)[|base + fields| - |o.pixels|..] == o.pixels;
    Some(base + fields)
  }

  /** What the class-wide predicates say of a 2D image. */
  lemma Image2DClass(o: Obj, s: Store)
    requires o.Image2D? && Packable(o)
    ensures Object3DOf(o) == Some(o.object3D) && Object3DPackable(o.object3D)
    ensures |o.pixels| < MAX32
    ensures HasLength(o) && GetDataLength(o) == Object3DLength(o.object3D) + 10 + (if !o.isMutable then 4 + (if o.format == RGBA then 4 + |o.pixels| else 0) else 0)
    ensures Encodable(o, s)
  {
  }

  /** `len(components) // componentCount`: the vertex count written. */
  function VertexCount(components: seq<int>, componentCount: byte): nat
    requires componentCount != 0
  {
    |components| / componentCount
  }

  /** The component size, count and encoding, the vertex count as a UInt16,
      then each component as `b` or `h`. */
  function VertexArrayFields(componentSize: byte, componentCount: byte, arrayEncoding: byte, vertexCount: u16, components: seq<int>): (r: seq<byte>)
    requires ComponentsFit(components, componentSize)
    ensures |r| == 5 + ComponentsLength(componentSize, |components|)
    ensures Unsigned(r[3..5]) == vertexCount
  {
    var r := [componentSize, componentCount, arrayEncoding] + (LE16(vertexCount) + ComponentsData(components, componentSize));
    assert r[3..5] == LE16(vertexCount);
    r
  }

  /** None when componentCount is 0 (division by zero) or the vertex count
      does not fit its UInt16. */
  function VertexArrayData(o: Obj, s: Store, ids: IdMap): (r: Option<seq<byte>>)
    requires o.VertexArray? && IdsFit(ids) && Packable(o)
    ensures EncodesAs(o, s, ids, r)
    ensures r.Some? ==>
      Unsigned(r.value[Object3DLength(o.object3D) + 3 .. Object3DLength(o.object3D) + 5])
        == VertexCount(o.components, o.componentCount)
  {
    VertexArrayClass(o, s);
    if o.componentCount == 0 then None
    else
      var vertexCount := VertexCount(o.components, o.componentCount);
      if vertexCount >= 0x1_0000 then None
      else
        var base := Object3DData(o.object3D, ids);
        var fields := VertexArrayFields(o.componentSize, o.componentCount, o.arrayEncoding, vertexCount, o.components);
        PrefixKept(base, fields, |base|);
        assert (base + fields)[|base| + 3 .. |base| + 5] == fields[3..5];
        Some(base + fields)
  }

  /** What the class-wide predicates say of a vertex array. */
  lemma VertexArrayClass(o: Obj, s: Store)
    requires o.VertexArray? && Packable(o)
    ensures Object3DOf(o) == Some(o.object3D) && Object3DPackable(o.object3D)
    ensures ComponentsFit(o.components, o.componentSize)
    ensures HasLength(o) && GetDataLength(o) == Object3DLength(o.object3D) + 5 + ComponentsLength(o.componentSize, |o.components|)
    ensures Encodable(o, s) <==> o.componentCount != 0 && VertexCount(o.components, o.componentCount) < 0x1_0000
  {
  }

  /** The default color, the position array with its bias and scale, the
      normal and color arrays, the texture coordinate count, then tex. */
  function VertexBufferFields(o: Obj, tex: seq<byte>, ids: IdMap): (r: seq<byte>)
    requires o.VertexBuffer? && IdsFit(ids) && |o.texCoordArrays| < MAX32
    ensures |r| == 36 + |tex|
    ensures U32At(r, 4, GetId(o.positions, ids))
    ensures U32sAt(r, 24, [GetId(o.normals, ids), GetId(o.colors, ids), |o.texCoordArrays|])
    ensures r[36..] == tex
  {
    var color := ColorRGBAData(o.defaultColor);
    var values := [GetId(o.normals, ids), GetId(o.colors, ids), |o.texCoordArrays|];
    var position := F32s(o.positionBias) + o.positionScale;
    GetIdFits(o.positions, ids);
    GetIdFits(o.normals, ids);
    GetIdFits(o.colors, ids);
    VertexBufferLayout(color, GetId(o.positions, ids), position, values, tex);
    color + LE32(GetId(o.positions, ids)) + position + U32List(values) + tex
  }

  /** Where the position id and the three trailing words of the vertex
      buffer fields sit. */
  lemma VertexBufferLayout(color: seq<byte>, positions: u32, position: seq<byte>, values: seq<nat>, tex: seq<byte>)
    requires |color| == 4 && |position| == 16 && |values| == 3
    requires forall i :: 0 <= i < |values| ==> values[i] < MAX32
    ensures |color + LE32(positions) + position + U32List(values) + tex| == 36 + |tex|
    ensures U32At(color + LE32(positions) + position + U32List(values) + tex, 4, positions)
    ensures U32sAt(color + LE32(positions) + position + U32List(values) + tex, 24, values)
    ensures (color + LE32(positions) + position + U32List(values) + tex)[36..] == tex
  {
    var r := color + LE32(positions) + position + U32List(values) + tex;
    U32AtOf(r, color, positions, position + U32List(values) + tex);
    U32sAtOf(color + LE32(positions) + position, values, tex);
    assert r[36..] == tex;
  }

  function VertexBufferData(o: Obj, s: Store, ids: IdMap): (r: Option<seq<byte>>)
    requires o.VertexBuffer? && IdsFit(ids) && Packable(o)
    ensures EncodesAs(o, s, ids, r)
    ensures r.Some? ==> U32At(r.value, Object3DLength(o.object3D) + 4, GetId(o.positions, ids))
    ensures r.Some? ==> U32sAt(r.value, Object3DLength(o.object3D) + 24,
      [GetId(o.normals, ids), GetId(o.colors, ids), |o.texCoordArrays|])
  {
    VertexBufferClass(o, s);
    match TexCoordData(o.texCoordArrays, s, ids)
    case None => None
    case Some(tex) =>
      VertexBufferEncoded(o, s, ids, tex);
      Some(Object3DData(o.object3D, ids) + VertexBufferFields(o, tex, ids))
  }

  /** The Object3D fields and the vertex buffer fields make up the vertex
      buffer's data. */
  lemma VertexBufferEncoded(o: Obj, s: Store, ids: IdMap, tex: seq<byte>)
    requires o.VertexBuffer? && IdsFit(ids) && Packable(o) && TexCoordData(o.texCoordArrays, s, ids) == Some(tex)
    ensures EncodesAs(o, s, ids, Some(Object3DData(o.object3D, ids) + VertexBufferFields(o, tex, ids)))
    ensures U32At(Object3DData(o.object3D, ids) + VertexBufferFields(o, tex, ids),
      Object3DLength(o.object3D) + 4, GetId(o.positions, ids))
    ensures U32sAt(Object3DData(o.object3D, ids) + VertexBufferFields(o, tex, ids), Object3DLength(o.object3D) + 24,
      [GetId(o.normals, ids), GetId(o.colors, ids), |o.texCoordArrays|])
  {
    VertexBufferClass(o, s);
    var base := Object3DData(o.object3D, ids);
    var fields := VertexBufferFields(o, tex, ids);
    PrefixKept(base, fields, |base|);
    VertexBufferFieldsMoved(base, o, tex, ids);
    EncodesAsSome(o, s, ids, o.object3D, base + fields);
  }

  /** What the class-wide predicates say of a vertex buffer. */
  lemma VertexBufferClass(o: Obj, s: Store)
    requires o.VertexBuffer? && Packable(o)
    ensures Object3DOf(o) == Some(o.object3D) && Object3DPackable(o.object3D)
    ensures |o.texCoordArrays| < MAX32
    ensures HasLength(o) && GetDataLength(o) == Object3DLength(o.object3D) + 36 + 20 * |o.texCoordArrays|
    ensures Encodable(o, s) <==> forall i :: 0 <= i < |o.texCoordArrays| ==> IsVertexArray(o.texCoordArrays[i], s)
  {
  }

  /** The vertex buffer fields keep their places behind the Object3D part. */
  lemma VertexBufferFieldsMoved(base: seq<byte>, o: Obj, tex: seq<byte>, ids: IdMap)
    requires o.VertexBuffer? && IdsFit(ids) && |o.texCoordArrays| < MAX32
    ensures U32At(base + VertexBufferFields(o, tex, ids), |base| + 4, GetId(o.positions, ids))
    ensures U32sAt(base + VertexBufferFields(o, tex, ids), |base| + 24,
      [GetId(o.normals, ids), GetId(o.colors, ids), |o.texCoordArrays|])
  {
    var fields := VertexBufferFields(o, tex, ids);
    U32AtShift(base + fields, base, fields, 4, GetId(o.positions, ids));
    U32sAtMoved(base, fields, 24, [GetId(o.normals, ids), GetId(o.colors, ids), |o.texCoordArrays|]);
  }

  /** Texture coordinate array k of a vertex buffer: its id sits 20 * k bytes
      into the per-array part, which follows the Object3D part and 36 bytes. */
  lemma VertexBufferTexCoordAt(o: Obj, s: Store, ids: IdMap, k: nat)
    requires o.VertexBuffer? && IdsFit(ids) && Packable(o)
    requires VertexBufferData(o, s, ids).Some? && k < |o.texCoordArrays|
    ensures U32At(VertexBufferData(o, s, ids).value, Object3DLength(o.object3D) + 36 + 20 * k,
      GetId(o.texCoordArrays[k], ids))
  {
    VertexBufferSplit(o, s, ids);
    TexCoordFieldAt(o, s, ids, k);
  }

  lemma TexCoordFieldAt(o: Obj, s: Store, ids: IdMap, k: nat)
    requires o.VertexBuffer? && IdsFit(ids) && |o.texCoordArrays| < MAX32 && Object3DPackable(o.object3D)
    requires TexCoordData(o.texCoordArrays, s, ids).Some? && k < |o.texCoordArrays|
    ensures U32At(Object3DData(o.object3D, ids) + VertexBufferFields(o, TexCoordData(o.texCoordArrays, s, ids).value, ids),
      Object3DLength(o.object3D) + 36 + 20 * k, GetId(o.texCoordArrays[k], ids))
  {
    TexCoordAt(o.texCoordArrays, s, ids, k);
    TexFieldMoved(Object3DData(o.object3D, ids), o, TexCoordData(o.texCoordArrays, s, ids).value, ids,
      20 * k, Object3DLength(o.object3D) + 36 + 20 * k, GetId(o.texCoordArrays[k], ids));
  }

  /** A vertex buffer's data is its Object3D part and its fields. */
  lemma VertexBufferSplit(o: Obj, s: Store, ids: IdMap)
    requires o.VertexBuffer? && IdsFit(ids) && Packable(o) && VertexBufferData(o, s, ids).Some?
    ensures TexCoordData(o.texCoordArrays, s, ids).Some?
    ensures VertexBufferData(o, s, ids).value
      == Object3DData(o.object3D, ids) + VertexBufferFields(o, TexCoordData(o.texCoordArrays, s, ids).value, ids)
  {
  }

  /** A word of the texture coordinate part sits 36 bytes past the end of
      the Object3D part. */
  lemma TexFieldMoved(base: seq<byte>, o: Obj, tex: seq<byte>, ids: IdMap, at: nat, to: nat, v: int)
    requires o.VertexBuffer? && IdsFit(ids) && |o.texCoordArrays| < MAX32
    requires U32At(tex, at, v) && to == |base| + 36 + at
    ensures U32At(base + VertexBufferFields(o, tex, ids), to, v)
  {
    var fields := VertexBufferFields(o, tex, ids);
    assert base + fields == (base + fields[..36]) + tex + [];
    WordIn(base + fields, base + fields[..36], tex, [], at);
  }

  /** None when the constructor set no interpolation (AttributeError) or a
      keyframe the counts promise is missing (IndexError). */
  function KeyframeSequenceData(o: Obj, s: Store, ids: IdMap): (r: Option<seq<byte>>)
    requires o.KeyframeSequence? && IdsFit(ids) && Packable(o)
    ensures EncodesAs(o, s, ids, r)
  {
    KeyframeSequenceClass(o, s);
    if o.interpolation.None? || !KeyframesPresent(o.keyframeCount, o.keyComponentCount, o.time, o.vectorValue) then None
    else
      var base := Object3DData(o.object3D, ids);
      var keyframes := KeyframesData(o.time, o.vectorValue, o.keyComponentCount, o.keyframeCount);
      var fields := [o.interpolation.value, o.repeatMode, o.sequenceEncoding]
        + LE32(o.duration) + LE32(o.validRangeFirst) + LE32(o.validRangeLast)
        + LE32(o.keyComponentCount) + LE32(o.keyframeCount) + keyframes;
      PrefixKept(base, fields, |base|);
      Some(base + fields)
  }

  /** What the class-wide predicates say of a keyframe sequence. */
  lemma KeyframeSequenceClass(o: Obj, s: Store)
    requires o.KeyframeSequence? && Packable(o)
    ensures Object3DOf(o) == Some(o.object3D) && Object3DPackable(o.object3D)
    ensures HasLength(o) && GetDataLength(o) == Object3DLength(o.object3D) + 23 + KeyframesLength(o.keyframeCount, o.keyComponentCount)
    ensures Encodable(o, s) <==> o.interpolation.Some? && KeyframesPresent(o.keyframeCount, o.keyComponentCount, o.time, o.vectorValue)
  {
  }

  /** A keyframe sequence built with no M3G interpolation and a Blender
      interpolation name other than "Constant", "Bezier" or "Linear" has no
      `interpolation` attribute, so its getData raises. */
  lemma UnknownInterpolationFails(o: Obj, s: Store, ids: IdMap, blender: string)
    requires o.KeyframeSequence? && IdsFit(ids) && Packable(o)
    requires o.interpolation == KeyframeInterpolation(blender, None)
    requires blender != "Constant" && blender != "Bezier" && blender != "Linear"
    ensures KeyframeSequenceData(o, s, ids) == None
  {
  }

  function AnimationControllerData(o: Obj, s: Store, ids: IdMap): (r: Option<seq<byte>>)
    requires o.AnimationController? && IdsFit(ids) && Packable(o)
    ensures EncodesAs(o, s, ids, r)
  {
    var base := Object3DData(o.object3D, ids);
    var fields := o.speed + o.weight + I32(o.activeIntervalStart) + I32(o.activeIntervalEnd)
      + o.referenceSequenceTime + I32(o.referenceWorldTime);
    PrefixKept(base, fields, |base|);
    Some(base + fields)
  }

  function AnimationTrackData(o: Obj, s: Store, ids: IdMap): (r: Option<seq<byte>>)
    requires o.AnimationTrack? && IdsFit(ids) && Packable(o)
    ensures EncodesAs(o, s, ids, r)
    ensures r.Some? ==> U32sAt(r.value, Object3DLength(o.object3D),
      [GetId(o.keyframeSequence, ids), GetId(o.animationController, ids), o.propertyID])
  {
    AnimationTrackClass(o, s);
    var base := Object3DData(o.object3D, ids);
    var values := AnimationTrackWords(o, ids);
    PrefixKept(base, U32List(values), |base|);
    U32sAtOf(base, values, []);
    assert base + U32List(values) + [] == base + U32List(values);
    Some(base + U32List(values))
  }

  /** The keyframe sequence id, the controller id and the property id. */
  function AnimationTrackWords(o: Obj, ids: IdMap): (r: seq<nat>)
    requires o.AnimationTrack? && IdsFit(ids)
    ensures r == [GetId(o.keyframeSequence, ids), GetId(o.animationController, ids), o.propertyID]
    ensures |r| == 3 && forall i :: 0 <= i < |r| ==> r[i] < MAX32
  {
    GetIdFits(o.keyframeSequence, ids);
    GetIdFits(o.animationController, ids);
    [GetId(o.keyframeSequence, ids), GetId(o.animationController, ids), o.propertyID]
  }

  /** What the class-wide predicates say of an animation track. */
  lemma AnimationTrackClass(o: Obj, s: Store)
    requires o.AnimationTrack? && Packable(o)
    ensures Object3DOf(o) == Some(o.object3D) && Object3DPackable(o.object3D)
    ensures HasLength(o) && GetDataLength(o) == Object3DLength(o.object3D) + 12
    ensures Encodable(o, s)
  {
  }

  /** `getData`: the record data of o, or None where the exporter raises. The
      data has exactly the length `getDataLength` announces, and every record
      of an Object3D starts with the Object3D fields. */
  function GetData(o: Obj, s: Store, ids: IdMap): (r: Option<seq<byte>>)
    requires IdsFit(ids) && Packable(o)
    ensures EncodesAs(o, s, ids, r)
  {
    match o
    case HeaderObject(_, _, _, _, _) => HeaderData(o, s, ids)
    case ExternalReference(_) => ExternalReferenceData(o, s, ids)
    case World(_, _, _) => WorldData(o, s, ids)
    case Group(_) => GroupObjectData(o, s, ids)
    case Mesh(_) => MeshObjectData(o, s, ids)
    case SkinnedMesh(_, _, _) => SkinnedMeshData(o, s, ids)
    case Camera(_, _, _, _, _, _) => CameraData(o, s, ids)
    case Light(_, _, _, _, _, _, _, _, _) => LightData(o, s, ids)
    case Background(_, _, _, _, _, _, _, _, _, _, _) => BackgroundData(o, s, ids)
    case Material(_, _, _, _, _, _, _) => MaterialData(o, s, ids)
    case PolygonMode(_, _, _, _, _, _, _) => PolygonModeData(o, s, ids)
    case TriangleStripArray(_, _, _, _) => TriangleStripArrayData(o, s, ids)
    case Appearance(_, _, _, _, _, _, _) => AppearanceData(o, s, ids)
    case Texture2D(_, _, _, _, _, _, _, _) => Texture2DData(o, s, ids)
    case Image2D(_, _, _, _, _, _) => Image2DData(o, s, ids)
    case VertexArray(_, _, _, _, _, _, _) => VertexArrayData(o, s, ids)
    case VertexBuffer(_, _, _, _, _, _, _, _) => VertexBufferData(o, s, ids)
    case KeyframeSequence(_, _, _, _, _, _, _, _, _, _, _) => KeyframeSequenceData(o, s, ids)
    case AnimationController(_, _, _, _, _, _, _) => AnimationControllerData(o, s, ids)
    case AnimationTrack(_, _, _, _) => AnimationTrackData(o, s, ids)
  }

  /** Every Object3D record starts with the Object3D fields (GetData's
      contract); in any data d that does, the first field is the userID, the
      next the animation-track count, followed by the id of each track in
      order. */
  lemma Object3DFieldsFirst(b: Object3DBase, ids: IdMap, d: seq<byte>, k: nat)
    requires IdsFit(ids) && Object3DPackable(b)
    requires |d| >= Object3DLength(b) && d[..Object3DLength(b)] == Object3DData(b, ids)
    requires k < |b.animationTracks|
    ensures Unsigned(d[0..4]) == b.userID
    ensures Unsigned(d[4..8]) == |b.animationTracks|
    ensures Unsigned(d[8 + 4 * k .. 12 + 4 * k]) == GetId(b.animationTracks[k], ids)
  {
    var head := Object3DData(b, ids);
    var n := |b.animationTracks|;
    SliceOfPrefix(d, head, 0, 4);
    SliceOfPrefix(d, head, 4, 8);
    SliceOfPrefix(d, head, 8 + 4 * k, 12 + 4 * k);
    RefListAt(b.animationTracks, ids, k);
    assert head[8 + 4 * k .. 12 + 4 * k] == head[8..8 + 4 * n][4 * k .. 4 * k + 4];
  }

  lemma SliceOfPrefix(d: seq<byte>, head: seq<byte>, i: nat, j: nat)
    requires |d| >= |head| && d[..|head|] == head && i <= j <= |head|
    ensures d[i..j] == head[i..j]
  {
    forall t | 0 <= t < j - i ensures d[i..j][t] == head[i..j][t] {
      assert d[..|head|][i + t] == d[i + t];
    }
  }
}
