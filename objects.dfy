/** The M3G object model: one record per object class, each holding the fields
    of its base classes by value, and the references between objects. */
module Objects {
  import opened Bytes

  /** The identity of an object. Two references are the same object exactly
      when their handles are equal. */
  type Ref = nat

  /** The objects of one export, by identity. */
  type Store = map<Ref, Obj>

  /** The id field of every object, by identity. An object that is not in the
      map still has the id 0 it was created with. */
  type IdMap = map<Ref, nat>

  const ZeroF32: F32 := [0, 0, 0, 0]

  datatype Vector3D = Vector3D(x: F32, y: F32, z: F32)

  /** Sixteen Float32 elements in the order the exporter stores them. */
  type Matrix = m: seq<F32> | |m| == 16
    witness [ZeroF32, ZeroF32, ZeroF32, ZeroF32, ZeroF32, ZeroF32, ZeroF32, ZeroF32,
             ZeroF32, ZeroF32, ZeroF32, ZeroF32, ZeroF32, ZeroF32, ZeroF32, ZeroF32]

  /** Three Float32 bias components of a vertex array. */
  type Bias = b: seq<F32> | |b| == 3 witness [ZeroF32, ZeroF32, ZeroF32]

  datatype ColorRGB = ColorRGB(red: byte, green: byte, blue: byte)
  datatype ColorRGBA = ColorRGBA(red: byte, green: byte, blue: byte, alpha: byte)

  /** M3GObject3D. */
  datatype Object3DBase = Object3DBase(
    userID: u32,
    animationTracks: seq<Option<Ref>>,
    userParameterCount: u32)

  /** M3GTransformable. */
  datatype TransformableBase = TransformableBase(
    object3D: Object3DBase,
    hasComponentTransform: bool,
    translation: Vector3D,
    scale: Vector3D,
    orientationAngle: F32,
    orientationAxis: Vector3D,
    hasGeneralTransform: bool,
    transform: Matrix)

  /** M3GNode. */
  datatype NodeBase = NodeBase(
    transformable: TransformableBase,
    enableRendering: bool,
    enablePicking: bool,
    alphaFactor: byte,
    scope: u32,
    hasAlignment: bool,
    zTarget: byte,
    yTarget: byte,
    zReference: Option<Ref>,
    yReference: Option<Ref>)

  /** M3GGroup. A child is always an object: the walk calls it directly. */
  datatype GroupBase = GroupBase(node: NodeBase, children: seq<Ref>)

  /** M3GMesh. The submesh count is the length of indexBuffer. */
  datatype MeshBase = MeshBase(
    node: NodeBase,
    vertexBuffer: Option<Ref>,
    indexBuffer: seq<Option<Ref>>,
    appearance: seq<Option<Ref>>)

  /** M3GBoneReference: a run of vertexCount vertices starting at firstVertex. */
  datatype BoneReference = BoneReference(firstVertex: int, vertexCount: int)

  /** What the skinned-mesh encoder reads of one M3GBone. */
  datatype BoneBinding = BoneBinding(transformNode: Option<Ref>, weight: i32, references: seq<BoneReference>)

  /** Projection type whose encoder reads a projection matrix the camera never has. */
  const GENERIC: byte := 48
  /** Image format whose pixels are written. */
  const RGBA: byte := 100

  datatype Obj =
    | HeaderObject(
        versionNumber: (byte, byte),
        hasExternalReferences: bool,
        totalFileSize: u32,
        approximateContentSize: u32,
        authoringField: string)
    | ExternalReference(uri: string)
    | World(group: GroupBase, activeCamera: Option<Ref>, background: Option<Ref>)
    | Group(group: GroupBase)
    | Mesh(mesh: MeshBase)
    | SkinnedMesh(mesh: MeshBase, skeleton: Option<Ref>, bones: seq<BoneBinding>)
    | Camera(cameraNode: NodeBase, projectionType: byte, fovy: F32, aspectRatio: F32, near: F32, far: F32)
    | Light(
        lightNode: NodeBase,
        attenuationConstant: F32, attenuationLinear: F32, attenuationQuadratic: F32,
        color: ColorRGB, mode: byte, intensity: F32, spotAngle: F32, spotExponent: F32)
    | Background(
        object3D: Object3DBase,
        backgroundColor: ColorRGBA,
        backgroundImage: Option<Ref>,
        backgroundImageModeX: byte, backgroundImageModeY: byte,
        cropX: i32, cropY: i32, cropWidth: i32, cropHeight: i32,
        depthClearEnabled: bool, colorClearEnabled: bool)
    | Material(
        object3D: Object3DBase,
        ambientColor: ColorRGB, diffuseColor: ColorRGBA, emissiveColor: ColorRGB, specularColor: ColorRGB,
        shininess: F32, vertexColorTrackingEnabled: bool)
    | PolygonMode(
        object3D: Object3DBase,
        culling: byte, shading: byte, winding: byte,
        twoSidedLightingEnabled: bool, localCameraLightingEnabled: bool, perspectiveCorrectionEnabled: bool)
    | TriangleStripArray(object3D: Object3DBase, encoding: byte, indices: seq<nat>, stripLengths: seq<nat>)
    | Appearance(
        object3D: Object3DBase,
        layer: byte,
        compositingMode: Option<Ref>, fog: Option<Ref>, polygonMode: Option<Ref>, material: Option<Ref>,
        textures: seq<Option<Ref>>)
    | Texture2D(
        texTransformable: TransformableBase,
        image: Option<Ref>,
        blendColor: ColorRGB,
        blending: byte, wrappingS: byte, wrappingT: byte, levelFilter: byte, imageFilter: byte)
    | Image2D(object3D: Object3DBase, format: byte, isMutable: bool, width: u32, height: u32, pixels: seq<byte>)
    | VertexArray(
        object3D: Object3DBase,
        componentSize: byte, componentCount: byte, arrayEncoding: byte,
        components: seq<int>,
        bias: Bias, scale: F32)
    | VertexBuffer(
        object3D: Object3DBase,
        defaultColor: ColorRGBA,
        positions: Option<Ref>, positionBias: Bias, positionScale: F32,
        normals: Option<Ref>, colors: Option<Ref>,
        texCoordArrays: seq<Option<Ref>>)
    | KeyframeSequence(
        object3D: Object3DBase,
        interpolation: Option<byte>, repeatMode: byte, sequenceEncoding: byte,
        duration: u32, validRangeFirst: u32, validRangeLast: u32,
        keyComponentCount: u32, keyframeCount: u32,
        time: seq<i32>, vectorValue: seq<seq<F32>>)
    | AnimationController(
        object3D: Object3DBase,
        speed: F32, weight: F32,
        activeIntervalStart: i32, activeIntervalEnd: i32,
        referenceSequenceTime: F32, referenceWorldTime: i32)
    | AnimationTrack(
        object3D: Object3DBase,
        keyframeSequence: Option<Ref>, animationController: Option<Ref>, propertyID: u32)

  /** The ObjectType tag written in front of every record. */
  function ObjectType(o: Obj): byte
  {
    match o
    case HeaderObject(_, _, _, _, _) => 0
    case ExternalReference(_) => 0xFF
    case AnimationController(_, _, _, _, _, _, _) => 1
    case AnimationTrack(_, _, _, _) => 2
    case Appearance(_, _, _, _, _, _, _) => 3
    case Background(_, _, _, _, _, _, _, _, _, _, _) => 4
    case Camera(_, _, _, _, _, _) => 5
    case PolygonMode(_, _, _, _, _, _, _) => 8
    case Group(_) => 9
    case Image2D(_, _, _, _, _, _) => 10
    case TriangleStripArray(_, _, _, _) => 11
    case Light(_, _, _, _, _, _, _, _, _) => 12
    case Material(_, _, _, _, _, _, _) => 13
    case Mesh(_) => 14
    case SkinnedMesh(_, _, _) => 16
    case Texture2D(_, _, _, _, _, _, _, _) => 17
    case KeyframeSequence(_, _, _, _, _, _, _, _, _, _, _) => 19
    case VertexArray(_, _, _, _, _, _, _) => 20
    case VertexBuffer(_, _, _, _, _, _, _, _) => 21
    case World(_, _, _) => 22
  }

  /** The interpolation constants of M3GKeyframeSequence. */
  const LINEAR: byte := 176
  const SPLINE: byte := 178
  const STEP: byte := 180

  /** The interpolation `M3GKeyframeSequence.__init__` sets: the M3G value
      when one is given, else the one matching the Blender interpolation
      name, and none at all for any other name. */
  function KeyframeInterpolation(blender: string, m3g: Option<byte>): (r: Option<byte>)
    ensures m3g.Some? ==> r == m3g
    ensures m3g.None? ==> (r.Some? <==> blender == "Constant" || blender == "Bezier" || blender == "Linear")
    ensures r.Some? && m3g.None? ==> r.value in {STEP, SPLINE, LINEAR}
  {
    if m3g.Some? then m3g
    else if blender == "Constant" then Some(STEP)
    else if blender == "Bezier" then Some(SPLINE)
    else if blender == "Linear" then Some(LINEAR)
    else None
  }

  /** The three Blender names map to three different M3G interpolations. */
  lemma KeyframeInterpolationDistinct(a: string, b: string)
    requires KeyframeInterpolation(a, None).Some? && KeyframeInterpolation(b, None).Some?
    ensures KeyframeInterpolation(a, None) == KeyframeInterpolation(b, None) <==> a == b
  {
  }

  /** The Object3D fields of every object that has them. */
  function Object3DOf(o: Obj): Option<Object3DBase>
  {
    match o
    case HeaderObject(_, _, _, _, _) => None
    case ExternalReference(_) => None
    case World(g, _, _) => Some(g.node.transformable.object3D)
    case Group(g) => Some(g.node.transformable.object3D)
    case Mesh(m) => Some(m.node.transformable.object3D)
    case SkinnedMesh(m, _, _) => Some(m.node.transformable.object3D)
    case Camera(n, _, _, _, _, _) => Some(n.transformable.object3D)
    case Light(n, _, _, _, _, _, _, _, _) => Some(n.transformable.object3D)
    case Texture2D(t, _, _, _, _, _, _, _) => Some(t.object3D)
    case _ => Some(o.object3D)
  }

  /** The references searchDeep follows from o, in the order it follows them.
      None entries are skipped by the walk. */
  function WalkRefs(o: Obj): seq<Option<Ref>>
  {
    match o
    case HeaderObject(_, _, _, _, _) => []
    case ExternalReference(_) => []
    case World(g, camera, background) => [camera, background] + GroupRefs(g)
    case Group(g) => GroupRefs(g)
    case Mesh(m) => MeshRefs(m)
    case SkinnedMesh(m, skeleton, _) => [skeleton] + MeshRefs(m)
    case Appearance(obj, _, compositingMode, fog, polygonMode, material, textures) =>
      [compositingMode, fog, polygonMode, material] + textures + obj.animationTracks
    case Texture2D(t, image, _, _, _, _, _, _) => [image] + t.object3D.animationTracks
    case VertexBuffer(obj, _, positions, _, _, normals, colors, texCoordArrays) =>
      [positions, normals, colors] + texCoordArrays + obj.animationTracks
    case AnimationTrack(obj, keyframeSequence, animationController, _) =>
      [keyframeSequence, animationController] + obj.animationTracks
    case _ => Object3DOf(o).value.animationTracks
  }

  function GroupRefs(g: GroupBase): seq<Option<Ref>>
  {
    SomeAll(g.children) + g.node.transformable.object3D.animationTracks
  }

  function MeshRefs(m: MeshBase): seq<Option<Ref>>
  {
    [m.vertexBuffer] + m.indexBuffer + m.appearance + m.node.transformable.object3D.animationTracks
  }

  function SomeAll(rs: seq<Ref>): (r: seq<Option<Ref>>)
    ensures |r| == |rs| && forall i :: 0 <= i < |rs| ==> r[i] == Some(rs[i])
  {
    if rs == [] then [] else [Some(rs[0])] + SomeAll(rs[1..])
  }

  /** r is among the references the walk follows from o. */
  predicate Follows(o: Obj, r: Ref)
  {
    Some(r) in WalkRefs(o)
  }

  /** A store the walk can traverse: every followed reference names an object
      of the store with a smaller handle, so the references form no cycle. */
  ghost predicate WellFormed(s: Store)
  {
    forall h: Ref, r: Ref :: h in s && Follows(s[h], r) ==> r in s && r < h
  }

  /** `getId`: the id of the referenced object, 0 for None. */
  function GetId(r: Option<Ref>, ids: IdMap): nat
  {
    match r
    case None => 0
    case Some(x) => if x in ids then ids[x] else 0
  }

  /** Every id fits the UInt32 an ObjectIndex is written as. */
  predicate IdsFit(ids: IdMap)
  {
    forall x :: x in ids ==> ids[x] < 0x1_0000_0000
  }

  lemma GetIdFits(r: Option<Ref>, ids: IdMap)
    requires IdsFit(ids)
    ensures GetId(r, ids) < 0x1_0000_0000
  {
  }
}
