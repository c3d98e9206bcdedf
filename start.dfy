/** `M3GExporter.start` once the world has been translated: the walk from the
    world, the ids, and the file the writer makes of them. */
module Exporter {
  import opened Bytes
  import opened Objects
  import opened Walk
  import opened Export
  import opened Container

  /** The objects behind a list of handles. */
  function ObjectsOf(s: Store, l: seq<Ref>): (r: seq<Obj>)
    requires forall x :: x in l ==> x in s
    ensures |r| == |l|
  {
    seq(|l|, k requires 0 <= k < |l| => s[l[k]])
  }

  /** The ids `start` hands out fit the UInt32 fields they are written to
      when the list has fewer than 2^32 - 1 entries. */
  lemma StartIdsFit(s: Store, l: seq<Ref>)
    requires |l| + 1 < MAX32
    ensures IdsFit(StartIds(s, l))
  {
    forall x | x in StartIds(s, l) ensures StartIds(s, l)[x] < 0x1_0000_0000 {
      IdRange(s, l, x);
    }
  }

  /** Every object of the walk list, and so of both parts of it, is in the store. */
  lemma PartsInStore(s: Store, world: Ref)
    requires WellFormed(s) && world in s
    ensures var l := Visit(s, world, []);
      (forall x :: x in Externals(s, l) ==> x in s) && (forall x :: x in Internals(s, l) ==> x in s)
  {
    var l := Visit(s, world, []);
    DeepSearchList(s, world);
    forall x | x in Externals(s, l) ensures x in s {
      ExternalsMembers(s, l, x);
    }
    forall x | x in Internals(s, l) ensures x in s {
      InternalsMembers(s, l, x);
    }
  }

  /** The scene objects of the walk list from the world, in walk order. */
  function SceneObjects(s: Store, world: Ref): seq<Obj>
    requires WellFormed(s) && world in s
  {
    PartsInStore(s, world);
    ObjectsOf(s, Internals(s, Visit(s, world, [])))
  }

  /** The external references of the walk list from the world, in walk order. */
  function ExternalObjects(s: Store, world: Ref): seq<Obj>
    requires WellFormed(s) && world in s
  {
    PartsInStore(s, world);
    ObjectsOf(s, Externals(s, Visit(s, world, [])))
  }

  /** The file `start` has written for the world: the scene objects and the
      external references of the walk list, numbered as `start` numbers them. */
  function ExportImage(s: Store, world: Ref): Option<seq<byte>>
    requires WellFormed(s) && world in s && |Visit(s, world, [])| + 1 < MAX32
  {
    StartIdsFit(s, Visit(s, world, []));
    FileImage(SceneObjects(s, world), ExternalObjects(s, world), s, StartIds(s, Visit(s, world, [])))
  }

  /** `start`: walk from the world, hand out the ids, write the file. */
  method Start(s: Store, world: Ref) returns (file: Option<seq<byte>>)
    requires WellFormed(s) && world in s
    requires |Visit(s, world, [])| + 1 < MAX32
    ensures file == ExportImage(s, world)
  {
    var exportList := SearchDeep(s, world, []);
    var ids, externalReferences, sceneObjects := AssignIds(s, exportList);
    PartsInStore(s, world);
    StartIdsFit(s, exportList);
    file := WriteFile(ObjectsOf(s, sceneObjects), ObjectsOf(s, externalReferences), s, ids);
  }

  /** The export image is the file made of the walk's two parts with the ids of `start`. */
  lemma ExportImageParts(s: Store, world: Ref, ids: IdMap, sceneObjects: seq<Obj>, externalObjects: seq<Obj>)
    requires WellFormed(s) && world in s && |Visit(s, world, [])| + 1 < MAX32
    requires ids == StartIds(s, Visit(s, world, [])) && IdsFit(ids)
    requires sceneObjects == SceneObjects(s, world) && externalObjects == ExternalObjects(s, world)
    ensures ExportImage(s, world) == FileImage(sceneObjects, externalObjects, s, ids)
  {
  }

  /** A file `start` writes reads back as the header section, whose header
      says whether there are external references and gives the file's size,
      then the section of the external references when there are any, then
      the scene section with one record per scene object in walk order. */
  lemma ExportReadsBack(s: Store, world: Ref, ids: IdMap, sceneObjects: seq<Obj>, externalObjects: seq<Obj>,
                        f: seq<byte>, scene: seq<SectionObject>, refs: seq<SectionObject>)
    requires WellFormed(s) && world in s && |Visit(s, world, [])| + 1 < MAX32
    requires ids == StartIds(s, Visit(s, world, [])) && IdsFit(ids)
    requires sceneObjects == SceneObjects(s, world) && externalObjects == ExternalObjects(s, world)
    requires FileImage(sceneObjects, externalObjects, s, ids) == Some(f)
    requires SectionObjects(sceneObjects, s, ids) == Some(scene)
    requires SectionObjects(externalObjects, s, ids) == Some(refs)
    ensures ExportImage(s, world) == Some(f)
    ensures |f| < MAX32
    ensures |scene| == |sceneObjects| && |refs| == |externalObjects|
    ensures ReadFile(f) == Some(
      [[HeaderRecord(|externalObjects| != 0, |f|)]]
      + (if |externalObjects| != 0 then [refs] else [])
      + [scene])
  {
    ExportImageParts(s, world, ids, sceneObjects, externalObjects);
    FileReadsBack(sceneObjects, externalObjects, s, ids, f, scene, refs);
  }
}
