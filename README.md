# M3G exporter core in Dafny

This project models the serialisation core of the Blender M3G exporter
(`m3g_exporter_blender36_v1.py`). The exporter writes scenes in the binary M3G
format of JSR 184, the Mobile 3D Graphics API for Java ME. The model covers
the path that runs once the Blender scene has become a graph of M3G objects:

- **Walk.** `searchDeep` and `doSearchDeep` walk the object graph from the
  world and build the export list. Each object appears once, after every
  object it refers to.
- **Ids.** `M3GExporter.start` splits the export list into external
  references and scene objects. It numbers the external references from 2,
  then the scene objects, since id 1 is the header object's.
- **Records.** Each class's `getData`/`getDataLength` writes its fields,
  base classes first, as little-endian values through `struct.pack`.
- **Container.** `M3GSectionObject`, `M3GSection` (with its own Adler-32),
  `M3GFileIdentifier` and `M3GWriter.writeFile` build the file. It is the
  identifier, then a header section, then an external-reference section when
  there are external references, then the scene section.
- **Helpers.** Three translator helpers with no Blender dependency are
  modelled too:
  - `M3GBone.createReferences`: sorted vertex lists become runs of
    consecutive vertices;
  - the index-strip part of `translateFaces`;
  - `translateUserID`: user ids taken from object names.

Objects live in a store, a map from handles to values. A reference is a
handle; `WellFormed` says that every reference points to an existing object
with a smaller handle, so the graph is acyclic. The `id` field the exporter
assigns by mutation is a separate `IdMap`. Python exceptions are `None` in an
`Option` result. A `struct.error` for a value too large for its field is a
precondition (`IdsFit`, `Packable`). Float32 values are taken as their four
bytes.

Modules, one per file: `Bytes` (little-endian packing), `Strings` (UTF-8 and
string fields), `Adler32`, `Objects`, `Encoding` (`getData` per class),
`Walk`, `Export` (partition and ids), `Container`, `Skinning` (bones),
`Strips`, `UserIds`, and `Exporter` (`start`).

## Model

| member | source | states |
|---|---|---|
| Bytes.LittleEndian | m3g_exporter_blender36_v1.py:255-260 | n bytes little-endian whose unsigned value is x, for every x below 256^n |
| Bytes.LE16 | m3g_exporter_blender36_v1.py:851-854 | a `<H` field is 2 bytes reading back as the value |
| Bytes.LE32 | m3g_exporter_blender36_v1.py:255-260 | a `<I` field is 4 bytes reading back as the value |
| Bytes.I32 | m3g_exporter_blender36_v1.py:635 | a `<i` field is 4 bytes reading back, two's complement, as the signed value |
| Bytes.I16 | m3g_exporter_blender36_v1.py:855-857 | a `<h` component is 2 bytes reading back as the signed value |
| Bytes.I8 | m3g_exporter_blender36_v1.py:855-857 | a `<b` component is 1 byte reading back as the signed value |
| Strings.Utf8Char | m3g_exporter_blender36_v1.py:214 | `str.encode()` of one character is 1 to 4 bytes, one byte exactly for ASCII, never a zero byte for a non-NUL character |
| Strings.Utf8LengthAscii | m3g_exporter_blender36_v1.py:214 | the encoding has as many bytes as the string has characters if and only if the string is ASCII |
| Strings.Utf8OfAscii | m3g_exporter_blender36_v1.py:214 | an ASCII string encodes to its character codes |
| Strings.Utf8NoZero | m3g_exporter_blender36_v1.py:214 | a string without NUL encodes without a zero byte |
| Strings.PackFixed | m3g_exporter_blender36_v1.py:228 | the `{n}s` format pads with zeros up to n bytes or truncates to n bytes |
| Strings.StringFieldAsWritten | m3g_exporter_blender36_v1.py:227-231 | the field as written is exactly as long as the length `getDataLength` reports |
| Strings.NonAsciiFieldHasNoTerminator | m3g_exporter_blender36_v1.py:227-228 | the URI "é" is written as its two UTF-8 bytes with no zero terminator |
| Strings.AsWrittenFieldUnreadable | m3g_exporter_blender36_v1.py:227-228 | a reader looking for the terminator finds none in the field written for "é" |
| Strings.StringField | m3g_exporter_blender36_v1.py:207-219 | the corrected field is the UTF-8 bytes followed by one zero byte, of the announced length |
| Strings.AsciiFieldsAgree | m3g_exporter_blender36_v1.py:207-231 | for ASCII strings the field as written and the corrected field are identical, length included |
| Strings.StringFieldRoundTrip | m3g_exporter_blender36_v1.py:227-228 | reading up to the first zero byte gives back the UTF-8 bytes of any string without NUL |
| Strings.FirstZero | m3g_exporter_blender36_v1.py:227-228 | the position of the terminator: the first zero byte, or the end |
| Adler32.Sums | m3g_exporter_blender36_v1.py:2278-2284 | both running sums stay below 65521 |
| Adler32.Checksum | m3g_exporter_blender36_v1.py:2278-2284 | the checksum fits a UInt32, its low half is s1 and its high half is s2 |
| Adler32.SumsClosedForm | m3g_exporter_blender36_v1.py:2278-2284 | s1 is 1 plus the byte sum and s2 is the length plus the position-weighted sum, both mod 65521, which is the Adler-32 definition |
| Adler32.ChecksumStep | m3g_exporter_blender36_v1.py:2281-2283 | one more byte updates s1 and then s2 exactly as the loop body does |
| Adler32.ChecksumSmall | m3g_exporter_blender36_v1.py:2278-2284 | the checksum of no bytes is 1, and of one byte b it is (b+1)·65537 |
| Objects.KeyframeInterpolation | m3g_exporter_blender36_v1.py:1382-1391 | a given M3G interpolation is kept; otherwise one is set exactly for the Blender names Constant, Bezier and Linear, and it is one of STEP, SPLINE and LINEAR |
| Objects.KeyframeInterpolationDistinct | m3g_exporter_blender36_v1.py:1382-1391 | the three Blender names map to three different interpolations |
| Encoding.RefList | m3g_exporter_blender36_v1.py:257-259 | a list of references packs to 4 bytes per entry |
| Encoding.RefListAt | m3g_exporter_blender36_v1.py:259 | entry k reads back as the id of reference k, or 0 for None |
| Encoding.U32List | m3g_exporter_blender36_v1.py:1039-1044 | a list of UInt32 values packs to 4 bytes per value |
| Encoding.U32ListAt | m3g_exporter_blender36_v1.py:1039-1044 | entry k reads back as value k |
| Encoding.Object3DData | m3g_exporter_blender36_v1.py:254-267 | the Object3D fields have the length `getDataLength` reports and read back as the userID, the track count and the track ids |
| Encoding.TransformableData | m3g_exporter_blender36_v1.py:305-329 | the Transformable data has the reported length and starts with the Object3D data |
| Encoding.NodeData | m3g_exporter_blender36_v1.py:349-370 | the Node data has the reported length and starts with the Object3D data; with alignment on, the zReference and yReference ids are written 10 and 14 bytes after the Transformable fields |
| Encoding.AlignmentAt | m3g_exporter_blender36_v1.py:358-363 | behind any fields, the two alignment targets are followed by the zReference id and then the yReference id |
| Encoding.GroupData | m3g_exporter_blender36_v1.py:396-404 | the Group data has the reported length and starts with the Object3D data; right after the Node fields come the child count and each child's id in order, and the Node references stay in place |
| Encoding.SubmeshData | m3g_exporter_blender36_v1.py:535-537 | each submesh contributes two ids, 8 bytes; where each id lies is stated by `Encoding.SubmeshAt` |
| Encoding.SubmeshIdsAt | m3g_exporter_blender36_v1.py:535-537 | the id list holds index buffer k's id at position 2k and appearance k's id at 2k + 1 |
| Encoding.SubmeshAt | m3g_exporter_blender36_v1.py:535-537 | submesh k writes its index buffer's id at 8k and its appearance's id at 8k + 4 |
| Encoding.MeshData | m3g_exporter_blender36_v1.py:533-545 | fails (IndexError) exactly when there are fewer appearances than index buffers; otherwise it has the reported length, starts with the Object3D data, keeps the Node references, and writes right after the Node fields the vertexBuffer id, the submesh count and each submesh's index-buffer and appearance ids |
| Encoding.BoneReferencesData | m3g_exporter_blender36_v1.py:632-635 | each bone reference writes 16 bytes; their fields are stated by `Encoding.BoneReferencesAt` |
| Encoding.BoneReferencesAt | m3g_exporter_blender36_v1.py:632-635 | reference j of a bone is written at 16j as the bone's node id, its firstVertex, its vertexCount and the bone weight as a signed Int32 |
| Encoding.BonesData | m3g_exporter_blender36_v1.py:631-635 | the bone records total 16 bytes per bone reference; the transformNode id and fields of each are stated by `Encoding.BonesDataAt` |
| Encoding.BonesDataAt | m3g_exporter_blender36_v1.py:631-635 | reference j of bone i sits after the references of the bones before it, with bone i's transformNode id and weight |
| Encoding.SkinFields | m3g_exporter_blender36_v1.py:624-636 | the skin fields are 8 bytes plus 16 per reference: the skeleton id, then the reference count, then the bone records |
| Encoding.ComponentsData | m3g_exporter_blender36_v1.py:855-857 | the components pack to 1 or 2 bytes each, by component size |
| Encoding.TexCoordData | m3g_exporter_blender36_v1.py:942-948 | the texture-coordinate entries are written exactly when every one is a vertex array, 20 bytes each; the array ids are stated by `Encoding.TexCoordAt` |
| Encoding.TexCoordAt | m3g_exporter_blender36_v1.py:942-943 | entry k begins with the id of texture-coordinate array k |
| Encoding.KeyframesData | m3g_exporter_blender36_v1.py:1411-1435 | the keyframes have the length `getDataLength` reports |
| Encoding.HeaderData | m3g_exporter_blender36_v1.py:207-219 | the header object encodes to the reported length, never failing |
| Encoding.ExternalReferenceData | m3g_exporter_blender36_v1.py:227-231 | the external reference encodes to the reported length |
| Encoding.WorldData | m3g_exporter_blender36_v1.py:429-434 | the World data has the reported length, starts with the Object3D data and holds the Group references; after the Group fields come the activeCamera id and then the background id |
| Encoding.GroupObjectData | m3g_exporter_blender36_v1.py:396-404 | the Group data has the reported length, starts with the Object3D data and holds the Node references, the child count and each child's id |
| Encoding.MeshObjectData | m3g_exporter_blender36_v1.py:533-545 | fails exactly on a missing appearance; otherwise it has the reported length and holds the Node references, the vertexBuffer id, the submesh count and the submesh id pairs |
| Encoding.SkinnedMeshData | m3g_exporter_blender36_v1.py:615-636 | fails exactly on a missing appearance; otherwise it has the reported length, starts with the Object3D data and holds the mesh references; after the mesh fields come the skeleton id, the reference count and the bone records |
| Encoding.SkinnedMeshBoneAt | m3g_exporter_blender36_v1.py:624-636 | in a skinned mesh's data, reference j of bone i is written after the mesh fields, the two counts and the earlier references, as the bone's transformNode id, firstVertex, vertexCount and weight |
| Encoding.CameraData | m3g_exporter_blender36_v1.py:506-522 | fails exactly for the GENERIC projection; otherwise it has the reported length and holds the Node alignment references |
| Encoding.LightData | m3g_exporter_blender36_v1.py:672-690 | the Light data has the reported length, starts with the Object3D data and holds the Node alignment references |
| Encoding.BackgroundData | m3g_exporter_blender36_v1.py:460-480 | the Background data has the reported length and starts with the Object3D data; the backgroundImage id follows the 4 colour bytes |
| Encoding.MaterialData | m3g_exporter_blender36_v1.py:715-731 | the Material data has the reported length and starts with the Object3D data |
| Encoding.PolygonModeData | m3g_exporter_blender36_v1.py:987-1001 | the PolygonMode data has the reported length and starts with the Object3D data |
| Encoding.TriangleStripArrayData | m3g_exporter_blender36_v1.py:1037-1055 | after the Object3D fields come the encoding byte, the index count, the indices, the strip count and the strip lengths, at the reported length |
| Encoding.AppearanceData | m3g_exporter_blender36_v1.py:1077-1095 | the Appearance data has the reported length and starts with the Object3D data; after the layer byte come the compositingMode, fog, polygonMode and material ids, the texture count and each texture's id |
| Encoding.Texture2DData | m3g_exporter_blender36_v1.py:1145-1162 | the Texture2D data has the reported length and starts with the Object3D data; the image id follows the Transformable fields |
| Encoding.Image2DData | m3g_exporter_blender36_v1.py:1215-1243 | has the reported length, and an immutable RGBA image ends with its pixels |
| Encoding.VertexArrayFields | m3g_exporter_blender36_v1.py:851-857 | the array fields are 5 bytes plus the components, and the vertexCount field reads back as given |
| Encoding.VertexArrayData | m3g_exporter_blender36_v1.py:847-866 | fails exactly on a zero component count or a vertexCount beyond UInt16; otherwise it has the reported length and its vertexCount field is the number of components divided by the component count |
| Encoding.VertexBufferFields | m3g_exporter_blender36_v1.py:928-949 | the vertex buffer fields are 36 bytes plus the texture-coordinate entries: the positions id at 4, then the normals id, the colors id and the entry count at 24, 28 and 32, then the entries |
| Encoding.VertexBufferData | m3g_exporter_blender36_v1.py:928-955 | fails exactly when a texture-coordinate entry is not a vertex array; otherwise it has the reported length and writes the positions, normals and colors ids and the entry count at their offsets |
| Encoding.VertexBufferTexCoordAt | m3g_exporter_blender36_v1.py:942-943 | in the vertex buffer's data, texture-coordinate entry k begins with the id of array k |
| Encoding.KeyframeSequenceData | m3g_exporter_blender36_v1.py:1411-1435 | fails exactly when the constructor set no interpolation (AttributeError) or a keyframe time or value is missing (IndexError); otherwise it has the reported length and starts with the Object3D data |
| Encoding.UnknownInterpolationFails | m3g_exporter_blender36_v1.py:1382-1391 | a sequence built without an M3G interpolation from a Blender name other than Constant, Bezier or Linear cannot be encoded |
| Encoding.AnimationControllerData | m3g_exporter_blender36_v1.py:1302-1315 | the AnimationController data has the reported length and starts with the Object3D data |
| Encoding.AnimationTrackData | m3g_exporter_blender36_v1.py:1347-1357 | the AnimationTrack data has the reported length; right after the Object3D fields come the keyframeSequence id, the animationController id and the propertyID |
| Encoding.GetData | m3g_exporter_blender36_v1.py:254-267 | for every class, `getData` fails exactly where it raises, otherwise its length is `getDataLength` and it starts with the Object3D fields |
| Encoding.Object3DFieldsFirst | m3g_exporter_blender36_v1.py:254-261 | in any class's data, the first fields read back as the userID, the track count and each track's id |
| Walk.Visit | m3g_exporter_blender36_v1.py:248-252 | `searchDeep` only appends to the list it is given, and the object itself ends up in it |
| Walk.VisitAll | m3g_exporter_blender36_v1.py:2492-2496 | `doSearchDeep` only appends to the list it is given |
| Walk.VisitNoDup | m3g_exporter_blender36_v1.py:248-252 | over the whole walk of `searchDeep` and `doSearchDeep` (2492-2496), the `not in` check keeps the list free of duplicates |
| Walk.VisitContents | m3g_exporter_blender36_v1.py:248-252 | over the whole walk of `searchDeep` and `doSearchDeep` (2492-2496), after the walk, an object is in the list if and only if it was there before or is reachable from the start |
| Walk.VisitOrdered | m3g_exporter_blender36_v1.py:248-252 | over the whole walk of `searchDeep` and `doSearchDeep` (2492-2496), the walk keeps every object after all the objects it refers to |
| Walk.ReachesBelow | m3g_exporter_blender36_v1.py:248-252 | over the whole walk of `searchDeep` and `doSearchDeep` (2492-2496), every object the walk reaches is in the store |
| Walk.DeepSearchList | m3g_exporter_blender36_v1.py:2179-2180 | the export list has no duplicates, lists every object after the ones it refers to, holds exactly the objects reachable from the world, and ends with the world |
| Walk.SearchDeep | m3g_exporter_blender36_v1.py:248-252 | the walk method computes `Visit` |
| Walk.DoSearchDeep | m3g_exporter_blender36_v1.py:2492-2496 | the loop over the references computes `VisitAll` |
| Export.Externals | m3g_exporter_blender36_v1.py:2157 | the external references of the export list, at most as many as it holds; `Export.ExternalsOrder` states that they keep its order |
| Export.Internals | m3g_exporter_blender36_v1.py:2158 | the scene objects of the export list, at most as many as it holds; `Export.InternalsOrder` states that they keep its order |
| Export.ExternalsPrefix | m3g_exporter_blender36_v1.py:2157 | the external references of a prefix of the list are a prefix of the external references of the list |
| Export.ExternalsAt | m3g_exporter_blender36_v1.py:2157 | an entry that is one of the external references sits among them right after those before it in the list |
| Export.ExternalsOrder | m3g_exporter_blender36_v1.py:2157 | any two external references appear in the same order as in the export list |
| Export.InternalsPrefix | m3g_exporter_blender36_v1.py:2158 | the scene objects of a prefix of the list are a prefix of the scene objects of the list |
| Export.InternalsAt | m3g_exporter_blender36_v1.py:2158 | an entry that is one of the scene objects sits among them right after those before it in the list |
| Export.InternalsOrder | m3g_exporter_blender36_v1.py:2158 | any two scene objects appear in the same order as in the export list |
| Export.ExternalsMembers | m3g_exporter_blender36_v1.py:2157 | an object is an external reference of the list if and only if it is in the list and is an `M3GExternalReference` |
| Export.InternalsMembers | m3g_exporter_blender36_v1.py:2158 | an object is a scene object of the list if and only if it is in the list and is not an `M3GExternalReference` |
| Export.PartitionLength | m3g_exporter_blender36_v1.py:2157-2158 | the two parts together are as long as the list |
| Export.PartitionNoDup | m3g_exporter_blender36_v1.py:2157-2158 | the two parts together have no duplicates |
| Export.InternalsOrdered | m3g_exporter_blender36_v1.py:2158 | among scene objects, every object still comes after the scene objects it refers to |
| Export.AssignIds | m3g_exporter_blender36_v1.py:2157-2173 | the method's parts and ids are those of the specification |
| Export.ExternalId | m3g_exporter_blender36_v1.py:2164-2166 | external reference k gets id 2 + k |
| Export.SceneId | m3g_exporter_blender36_v1.py:2170-2172 | scene object k gets id 2 + (number of external references) + k |
| Export.IdRange | m3g_exporter_blender36_v1.py:2161-2172 | the objects given an id are exactly those of the list, with ids from 2 to the list length + 1 |
| Export.IdsDistinct | m3g_exporter_blender36_v1.py:2161-2172 | two distinct objects get distinct ids |
| Export.ReferencesPrecede | m3g_exporter_blender36_v1.py:2161-2172 | every object referred to has a smaller id than the object referring to it |
| Container.NewSectionObject | m3g_exporter_blender36_v1.py:2240-2244 | a record carries the object's type and the data of `getData`, and its length matches the data |
| Container.AllSome | m3g_exporter_blender36_v1.py:2261-2264 | the values of a list of options, in order, and None exactly when one of them is None |
| Container.SectionObjects | m3g_exporter_blender36_v1.py:2255-2264 | one consistent record per object, record i being object i's record, and no records exactly when some object's `getData` fails |
| Container.Record | m3g_exporter_blender36_v1.py:2246-2252 | a record is as long as `getDataLength` reports: 5 bytes plus the data |
| Container.Records | m3g_exporter_blender36_v1.py:2261-2264 | the records are as long as the sum of their lengths |
| Container.RecordsRoundTrip | m3g_exporter_blender36_v1.py:2246-2264 | reading the records of a section gives back the records |
| Container.SectionImage | m3g_exporter_blender36_v1.py:2268-2276 | a section is written exactly when both lengths fit a UInt32, and it is 13 bytes longer than its records |
| Container.Section.constructor | m3g_exporter_blender36_v1.py:2255-2266 | a new section holds the records of its objects with the lengths they add up to |
| Container.Section.GetData | m3g_exporter_blender36_v1.py:2268-2276 | the section bytes, with the checksum field set to the Adler-32 of everything before it |
| Container.Section.Write | m3g_exporter_blender36_v1.py:2289-2292 | writing appends the section bytes to the output and leaves in the section the Adler-32 checksum of the written bytes before the checksum field; nothing changes when the section cannot be packed |
| Container.Section.OwnAdler32 | m3g_exporter_blender36_v1.py:2278-2284 | the loop computes the Adler-32 checksum of the data |
| Container.ReadSection | m3g_exporter_blender36_v1.py:2268-2276 | reading a section consumes at least one byte |
| Container.SectionRoundTrip | m3g_exporter_blender36_v1.py:2268-2276 | reading a written section gives back its records and the bytes after it, checksum checked |
| Container.AuthoringFieldIs | m3g_exporter_blender36_v1.py:205 | the authoring field "Blender M3G Export" takes 19 bytes |
| Container.HeaderRecord | m3g_exporter_blender36_v1.py:207-219 | the header record has type 0 and takes 35 bytes |
| Container.HeaderEncoded | m3g_exporter_blender36_v1.py:207-215 | the header object encodes to the version, the flag, the two sizes and the authoring field |
| Container.HeaderSectionObject | m3g_exporter_blender36_v1.py:2240-2244 | the header object's record is the header record |
| Container.HeaderSection | m3g_exporter_blender36_v1.py:2331 | the header section's records are the single header record |
| Container.HeaderSectionLength | m3g_exporter_blender36_v1.py:2331 | the header section is 48 bytes long whatever the header says |
| Container.SectionBytes | m3g_exporter_blender36_v1.py:2268-2276 | a section is as long as its `getLength` |
| Container.SectionImageOf | m3g_exporter_blender36_v1.py:2268-2276 | a section of records is written exactly when its length fits a UInt32 |
| Container.FileBytes | m3g_exporter_blender36_v1.py:2311-2338 | the file is written exactly when its length fits a UInt32, and it is as long as the length computed for the header |
| Container.FileBytesOf | m3g_exporter_blender36_v1.py:2333-2338 | the file is the identifier, the header section, the optional external-reference section and the scene section, in that order |
| Container.FileImageOf | m3g_exporter_blender36_v1.py:2311-2338 | the file of the objects is the file of their records |
| Container.WriteFile | m3g_exporter_blender36_v1.py:2311-2338 | `writeFile` produces the file image, or fails where the exporter raises |
| Container.MeasureSections | m3g_exporter_blender36_v1.py:2316-2330 | the first pass builds the sections, sets the external-references flag exactly when there are any, and measures the file |
| Container.NewHeaderSection | m3g_exporter_blender36_v1.py:2329-2331 | the rebuilt header section holds the final header record and is 48 bytes long |
| Container.SectionChecksum | m3g_exporter_blender36_v1.py:2268-2276 | the section's bytes end with the UInt32 Adler-32 checksum of all the bytes before it |
| Container.ChecksumOfWritten | m3g_exporter_blender36_v1.py:2289-2292 | the bytes a section's write appends, up to its checksum field, have the section's checksum |
| Container.WriteSection | m3g_exporter_blender36_v1.py:2289-2292 | writing a section that holds some records appends its bytes and leaves its checksum in it |
| Container.WriteSections | m3g_exporter_blender36_v1.py:2333-2338 | the sections are written after the identifier, in file order, and each section ends up holding the checksum of its own bytes (a section passed twice holds the one of its last write) |
| Container.SectionsRoundTrip | m3g_exporter_blender36_v1.py:2333-2338 | reading a section followed by more sections gives its records followed by theirs |
| Container.BodySections | m3g_exporter_blender36_v1.py:2333-2338 | the sections after the header read back as the optional external references and the scene |
| Container.FileLayout | m3g_exporter_blender36_v1.py:2311-2338 | the file starts with the identifier and the header section that describes the file's own length |
| Container.ReadLaidOutFile | m3g_exporter_blender36_v1.py:2311-2338 | a file laid out that way reads back as its sections |
| Container.FileRoundTrip | m3g_exporter_blender36_v1.py:2311-2338 | the file reads back as the header record, whose size field is the file's real length, then the external references if any, then the scene records |
| Container.FileReadsBack | m3g_exporter_blender36_v1.py:2311-2338 | the file written for the objects reads back as their records, one per object, behind a header giving the true file size |
| Skinning.Insert | m3g_exporter_blender36_v1.py:107 | inserting into a sorted list keeps it sorted and adds exactly the one element |
| Skinning.Sort | m3g_exporter_blender36_v1.py:107 | `list.sort()` gives a sorted permutation |
| Skinning.SortedUnique | m3g_exporter_blender36_v1.py:107 | two sorted permutations of one list are equal, so any sort gives the same list |
| Skinning.RunsOf | m3g_exporter_blender36_v1.py:108-121 | the last run ends just after the last vertex |
| Skinning.RunsExpand | m3g_exporter_blender36_v1.py:108-121 | the runs expand back to exactly the vertex list |
| Skinning.RunsPositive | m3g_exporter_blender36_v1.py:108-121 | every run has at least one vertex |
| Skinning.RunsMaximal | m3g_exporter_blender36_v1.py:112-118 | no run ends where the next one starts |
| Skinning.RunsTotal | m3g_exporter_blender36_v1.py:108-121 | the vertex counts add up to the number of vertices |
| Skinning.RunsUnique | m3g_exporter_blender36_v1.py:108-121 | the runs are the only positive, maximal runs that expand to the vertex list |
| Skinning.Bone.constructor | m3g_exporter_blender36_v1.py:95-99 | a new bone has no vertices, no node, no references and weight 0 |
| Skinning.Bone.SetVerts | m3g_exporter_blender36_v1.py:101-103 | a non-empty list is stored sorted and its runs computed; an empty one leaves the references unchanged |
| Skinning.Bone.CreateReferences | m3g_exporter_blender36_v1.py:105-121 | the vertices are sorted and the references are their runs; nothing changes for an empty list |
| Skinning.BuildingStep | m3g_exporter_blender36_v1.py:112-118 | one turn of the loop, joining the run or closing it, keeps the runs of the vertices seen so far |
| Skinning.FindRuns | m3g_exporter_blender36_v1.py:108-121 | the loop computes the runs of the vertices |
| Skinning.BoneReferencesCover | m3g_exporter_blender36_v1.py:101-121 | after `setVerts`, the references cover exactly the vertices, are non-empty and maximal, and count all of them |
| Strips.ScanFaces | m3g_exporter_blender36_v1.py:1869-1937 | the scratch list always has four slots |
| Strips.FaceOrder | m3g_exporter_blender36_v1.py:1931-1935 | a face's strip has one index per corner |
| Strips.ScanDefined | m3g_exporter_blender36_v1.py:1877-1909 | the faces are translated if and only if none has more than four corners |
| Strips.ScanLengths | m3g_exporter_blender36_v1.py:1931-1935 | one strip length per face, equal to its number of corners, and three indices per face or four per quad |
| Strips.ScanOrders | m3g_exporter_blender36_v1.py:1905-1935 | for triangles and quads the indices are each face's own corners, in strip order |
| Strips.StripLengthsCoverIndices | m3g_exporter_blender36_v1.py:1931-1935 | the strip lengths add up to the number of indices if and only if every face is a triangle or a quad |
| Strips.ScanLengthsSum | m3g_exporter_blender36_v1.py:1931-1935 | the strip lengths never add up to more than the indices written |
| Strips.CountsMeetOnlyOnTrianglesAndQuads | m3g_exporter_blender36_v1.py:1931-1935 | when the sums meet, every face has three or four corners |
| Strips.ScanStep | m3g_exporter_blender36_v1.py:1877-1935 | one more face of at most four corners extends both lists and overwrites its slots |
| Strips.TooManyCorners | m3g_exporter_blender36_v1.py:1905-1909 | a face with a fifth corner stops the translation |
| Strips.StoreSlot | m3g_exporter_blender36_v1.py:1905-1909 | storing corner j keeps corners 0..j and the stale slots after them |
| Strips.StoreCorners | m3g_exporter_blender36_v1.py:1877-1909 | the inner loop fails if and only if the face has more than four corners, otherwise the face's corners overwrite the first slots |
| Strips.TranslateFaceStrips | m3g_exporter_blender36_v1.py:1869-1937 | the method fails exactly where the scan does and otherwise yields its strip lengths and indices |
| UserIds.Find | m3g_exporter_blender36_v1.py:2095 | `find` returns -1 if and only if the character is absent, otherwise its first position |
| UserIds.Run | m3g_exporter_blender36_v1.py:2101-2105 | the scan stops at the first character that fails the test |
| UserIds.RunIs | m3g_exporter_blender36_v1.py:2101-2105 | a prefix of passing characters ended by a failing one is the run |
| UserIds.Int | m3g_exporter_blender36_v1.py:2107-2108 | `int` succeeds if and only if every character is an ASCII decimal digit, and then gives the decimal value |
| UserIds.UserIdAsWritten | m3g_exporter_blender36_v1.py:2093-2110 | a name without '#' has user id 0 |
| UserIds.RunIdAsWrittenFails | m3g_exporter_blender36_v1.py:2101-2108 | after the '#', `int` raises exactly when the run of `isdigit` characters holds a digit that is not decimal |
| UserIds.AsWrittenFails | m3g_exporter_blender36_v1.py:2093-2110 | the code as written raises exactly when the name has a '#' and the `isdigit` run right after it holds a non-decimal digit |
| UserIds.OtherDigitUserIdFails | m3g_exporter_blender36_v1.py:2101-2108 | any superscript, subscript, circled or other Numeric_Type Digit character right after the first '#' makes the code as written raise |
| UserIds.SuperscriptUserIdFails | m3g_exporter_blender36_v1.py:2101-2108 | the name "Cube#²" makes the code as written raise |
| UserIds.UserId | m3g_exporter_blender36_v1.py:2093-2110 | corrected scan (Findings row 2101-2108): a name without '#' has user id 0 |
| UserIds.RunsMeet | m3g_exporter_blender36_v1.py:2101-2105 | when the `isdigit` run has only decimal digits, the two scans stop at the same place |
| UserIds.RunIdAsWrittenAgrees | m3g_exporter_blender36_v1.py:2101-2108 | wherever the scan after the '#' gives an id, it is the corrected one |
| UserIds.AsWrittenAgrees | m3g_exporter_blender36_v1.py:2093-2110 | wherever the code as written gives an id, it is the corrected user id |
| UserIds.Digits | m3g_exporter_blender36_v1.py:2107-2108 | decimal digits whose value is n |
| UserIds.RunOfDigits | m3g_exporter_blender36_v1.py:2101-2105 | the scan over digits followed by a non-digit stops after the digits |
| UserIds.FindAfter | m3g_exporter_blender36_v1.py:2095 | in a name whose first '#' follows a prefix, `find` returns the prefix length |
| UserIds.RunIdOf | m3g_exporter_blender36_v1.py:2099-2108 | decimal digits d followed by a non-digit or the end give the value of d, and 0 when d is empty |
| UserIds.UserIdRoundTrip | m3g_exporter_blender36_v1.py:2093-2110 | a name whose first '#' is followed by any decimal string d, possibly empty or with leading zeros, and then a non-digit or the end, has the value of d as user id (0 when no digit follows) |
| UserIds.UserIdOfNumber | m3g_exporter_blender36_v1.py:2093-2110 | a name with n in decimal right after its first '#' has user id n |
| UserIds.TranslateUserID | m3g_exporter_blender36_v1.py:2093-2110 | corrected scan (Findings row 2101-2108): the loop returns UserId: the value of the decimal digits right after the first '#', and 0 when the name has no '#' or no digit follows it |
| Exporter.StartIdsFit | m3g_exporter_blender36_v1.py:2161-2172 | with fewer than 2^32 - 1 objects every id fits its UInt32 field |
| Exporter.Start | m3g_exporter_blender36_v1.py:2151-2177 | `start` writes the export image of the world |
| Exporter.ExportReadsBack | m3g_exporter_blender36_v1.py:2151-2177 | the file `start` writes reads back as the header (with the external-reference flag and the true file size), the external references when there are any, and one scene record per scene object in walk order |

## Left out

- Encoding.ExternalReferenceData: the encoders write the corrected string
  field of the Findings table (UTF-8 bytes and a zero byte, with its length
  counted in bytes), not the `{len(s)+1}s` packing. The two agree for ASCII
  strings (`Strings.AsciiFieldsAgree`). For the URI "é" the source writes
  [C3 A9] with a length of 2; the model writes [C3 A9 00] with a length of 3.
- Encoding.HeaderData: the same corrected field for the authoring text. The
  exporter's own text is ASCII, so for it both forms agree
  (`Container.AuthoringFieldIs`).
- Encoding.GetData: inherits the corrected field from the two encoders above.
- Container.WriteFile: inherits the corrected field; a file with a non-ASCII
  external-reference URI differs from the source's in those bytes.
- Exporter.Start: inherits the corrected field in the same way.
- Reading Blender data is not part of this model: `M3GTranslator.start`,
  `translateMesh`, the materials, cameras, lights, animations and images.
  The model starts from the M3G object graph the translator has built, and
  in that graph every UInt32 and Int32 field holds an integer. The
  translator itself stores float values in a keyframe sequence's
  `duration` and keyframe times, which `<I` and `<i` reject; that failure
  is not modelled.
- Float quantisation, the float32 packing of `<f` fields, the vertex auto
  scaling, the snapping before export, the colour and pixel conversions and
  the camera and light maths are left out. Float32 values are taken as their
  four bytes.
- File I/O, `print`, the Java source writer, the image factory and the
  Blender operator, UI and registration code are left out.
  `Container.Section.Write` appends to a byte sequence instead of a file.
- Cycles in the object graph are left out. `WellFormed` requires every
  reference to point to a smaller handle, so the walk terminates. The
  exporter itself never builds a cycle.
- A `struct.error` raised for a count, id or size of 2^32 or more is a
  precondition: `IdsFit` and `Packable`, and at most 2^32 - 3 objects for
  `Exporter.Start`. A section or file that is too long is modelled as `None`.
- Encoding.CameraData: a camera with the GENERIC projection raises in the
  exporter because its matrix is never set. The model gives `None` and does
  not say which exception.
- Container.Section.constructor: the model's section starts with a
  checksum of 0. The source's `M3GSection.__init__` sets no `Checksum`
  attribute at all; `getData` creates it. Compressed sections are not
  modelled because the exporter never compresses.
- Skinning.Sort: `list.sort()` is modelled by an insertion sort.
  `Skinning.SortedUnique` proves that every sorted permutation is that one
  list.
- Skinning.Bone.SetVerts: the bone keeps the caller's list object in the
  source, so later sorting is visible to the caller. The model stores a
  value and does not capture this aliasing.
- Strips.TranslateFaceStrips: the vertex sharing of `translateFaces` is left
  out. It reads Blender positions, normals and UV coordinates; faces are
  given already resolved to vertex-buffer positions. Faces with fewer than
  three corners are modelled: they append stale scratch slots, as written.
- UserIds.Int: decimal digits of scripts other than ASCII (Unicode
  category Nd), which `int` accepts, are not modelled.
- UserIds.UserIdAsWritten: for the same reason, a name such as "Cube#٣"
  (Arabic-Indic three) gets 0 here, where the source gives 3. Every other
  character `isdigit` accepts is modelled, as the Numeric_Type Digit set of
  Unicode 15.0.
- `isOrderClockWise` is not modelled: it is never called.
- The `id` attributes the exporter sets on the objects are an `IdMap`
  handed to the encoders, not a field update.

## Findings

| source | as written | input that shows it | evidently intended | confidence | as-written member | corrected member |
|---|---|---|---|---|---|---|
| m3g_exporter_blender36_v1.py:228 | the URI of an external reference (and the authoring field at line 214, in the same way) is packed as `{len(s)+1}s` of `s.encode()`; the width counts characters, not UTF-8 bytes | the URI "é" (and any non-ASCII authoring field or URI) | the UTF-8 bytes followed by a zero terminator, with the length counting bytes | not executed | Strings.AsWrittenFieldUnreadable | Strings.StringFieldRoundTrip |
| m3g_exporter_blender36_v1.py:2101-2108 | the digits after '#' are scanned with `str.isdigit`, which accepts superscript, subscript, circled and other Numeric_Type Digit characters that `int` then rejects with ValueError | the object names "Cube#²" and "Cube#₁" | the scan stops at characters `int` cannot read | not executed | UserIds.OtherDigitUserIdFails | UserIds.UserIdRoundTrip |
