/** The M3G container: every object becomes a record, records are grouped
    into checksummed sections, and the file is the identifier followed by a
    header section, an optional external-reference section and the scene
    section. */
module Container {
  import opened Bytes
  import opened Objects
  import opened Strings
  import opened Encoding
  import Adler32

  // ----- Records (M3GSectionObject) -----

  /** `M3GSectionObject`: the ObjectType, the payload and the length the
      object reported for it. */
  datatype SectionObject = SectionObject(objectType: byte, data: seq<byte>, length: nat)

  /** The payload is as long as the length field says, and that length fits
      the UInt32 it is written as. */
  predicate Consistent(so: SectionObject)
  {
    so.length == |so.data| && so.length < MAX32
  }

  predicate AllConsistent(sos: seq<SectionObject>)
  {
    forall i :: 0 <= i < |sos| ==> Consistent(sos[i])
  }

  /** `M3GSectionObject(o)`: the object's getData and getDataLength. None
      when getData raises or the length does not fit the record header. */
  function NewSectionObject(o: Obj, s: Store, ids: IdMap): (r: Option<SectionObject>)
    requires IdsFit(ids)
    ensures r.Some? ==> Consistent(r.value) && r.value.objectType == ObjectType(o)
    ensures r.Some? ==> Packable(o) && GetData(o, s, ids) == Some(r.value.data)
  {
    if !Packable(o) then None
    else
      match GetData(o, s, ids)
      case None => None
      case Some(d) => if GetDataLength(o) >= MAX32 then None else Some(SectionObject(ObjectType(o), d, GetDataLength(o)))
  }

  /** The values of a list of options, or None as soon as one of them is
      None. */
  function AllSome<T>(xs: seq<Option<T>>): (r: Option<seq<T>>)
    ensures r.Some? ==> |r.value| == |xs| && forall i :: 0 <= i < |xs| ==> xs[i] == Some(r.value[i])
    ensures r.None? <==> exists i :: 0 <= i < |xs| && xs[i].None?
  {
    if xs == [] then Some([])
    else
      var rest := AllSome(xs[1..]);
      if xs[0].None? then None
      else if rest.None? then
        var i :| 0 <= i < |xs| - 1 && xs[1..][i].None?;
        assert xs[i + 1].None?;
        None
      else
        var r := [xs[0].value] + rest.value;
        assert forall i :: 1 <= i < |xs| ==> xs[i] == xs[1..][i - 1];
        Some(r)
  }

  /** One present value gives the list of that value. */
  lemma AllSomeOne<T>(x: T)
    ensures AllSome([Some(x)]) == Some([x])
  {
    var r := AllSome([Some(x)]);
    assert r.Some? && |r.value| == 1 && [Some(x)][0] == Some(r.value[0]);
    assert r.value == [x];
  }

  /** The section objects of a list of objects, or None when one of them
      cannot be written: object by object, as the section constructor builds
      them. */
  function SectionObjects(l: seq<Obj>, s: Store, ids: IdMap): (r: Option<seq<SectionObject>>)
    requires IdsFit(ids)
    ensures r.Some? ==> |r.value| == |l| && AllConsistent(r.value)
    ensures r.Some? ==> forall i :: 0 <= i < |l| ==> NewSectionObject(l[i], s, ids) == Some(r.value[i])
    ensures r.None? <==> exists i :: 0 <= i < |l| && NewSectionObject(l[i], s, ids).None?
  {
    AllSome(seq(|l|, i requires 0 <= i < |l| => NewSectionObject(l[i], s, ids)))
  }

  /** `M3GSectionObject.getDataLength`: the five header bytes and the payload. */
  function RecordLength(so: SectionObject): nat
  {
    5 + so.length
  }

  /** `M3GSectionObject.getData`: the ObjectType byte, the length as a
      UInt32 and the payload. */
  function Record(so: SectionObject): (r: seq<byte>)
    requires Consistent(so)
    ensures |r| == RecordLength(so)
  {
    [so.objectType] + LE32(so.length) + so.data
  }

  /** The `Objects` bytes of a section: the records in order. */
  function Records(sos: seq<SectionObject>): (r: seq<byte>)
    requires AllConsistent(sos)
    ensures |r| == RecordsLength(sos)
  {
    if sos == [] then [] else Record(sos[0]) + Records(sos[1..])
  }

  /** `UncompressedLength`: the sum of the record lengths. */
  function RecordsLength(sos: seq<SectionObject>): nat
  {
    if sos == [] then 0 else RecordLength(sos[0]) + RecordsLength(sos[1..])
  }

  lemma {:induction false} RecordsSnoc(sos: seq<SectionObject>, so: SectionObject)
    requires AllConsistent(sos) && Consistent(so)
    ensures AllConsistent(sos + [so])
    ensures Records(sos + [so]) == Records(sos) + Record(so)
    ensures RecordsLength(sos + [so]) == RecordsLength(sos) + RecordLength(so)
  {
    var t := sos + [so];
    assert AllConsistent(t) by {
      forall i | 0 <= i < |t| ensures Consistent(t[i]) {
        if i < |sos| { assert t[i] == sos[i]; }
      }
    }
    if sos != [] {
      assert t[0] == sos[0];
      assert t[1..] == sos[1..] + [so];
      ConsistentTail(sos);
      RecordsSnoc(sos[1..], so);
      var a, b, c := Record(sos[0]), Records(sos[1..]), Record(so);
      assert Records(t) == a + (b + c);
      assert a + (b + c) == (a + b) + c;
    }
  }

  lemma ConsistentTail(sos: seq<SectionObject>)
    requires AllConsistent(sos) && sos != []
    ensures AllConsistent(sos[1..])
  {
    forall i | 0 <= i < |sos| - 1 ensures Consistent(sos[1..][i]) {
      assert sos[1..][i] == sos[i + 1];
    }
  }

  lemma TakeOneMore(sos: seq<SectionObject>, i: nat)
    requires i < |sos|
    ensures sos[..i + 1] == sos[..i] + [sos[i]]
  {
  }

  /** A reader of the `Objects` bytes: each record is cut off by its length
      field; None when a length runs past the end. */
  function ReadRecords(b: seq<byte>): Option<seq<SectionObject>>
    decreases |b|
  {
    if b == [] then Some([])
    else if |b| < 5 then None
    else
      var length := Unsigned(b[1..5]);
      if |b| < 5 + length then None
      else
        match ReadRecords(b[5 + length..])
        case None => None
        case Some(rest) => Some([SectionObject(b[0], b[5..5 + length], length)] + rest)
  }

  /** Reading the records back gives exactly the section objects written. */
  lemma {:induction false} RecordsRoundTrip(sos: seq<SectionObject>)
    requires AllConsistent(sos)
    ensures ReadRecords(Records(sos)) == Some(sos)
  {
    if sos != [] {
      var so := sos[0];
      var b := Record(so) + Records(sos[1..]);
      assert b[1..5] == LE32(so.length);
      assert b[5..5 + so.length] == so.data;
      assert b[5 + so.length..] == Records(sos[1..]);
      RecordsRoundTrip(sos[1..]);
      assert [so] + sos[1..] == sos;
    }
  }

  // ----- Sections (M3GSection) -----

  /** The bytes `M3GSection.getData` returns: the compression scheme, the two
      lengths, the records and the Adler-32 checksum of everything before it.
      None when a length does not fit its UInt32 field. */
  function SectionImage(scheme: byte, total: nat, uncompressed: nat, objects: seq<byte>): (r: Option<seq<byte>>)
    ensures r.Some? <==> total < MAX32 && uncompressed < MAX32
    ensures r.Some? ==> |r.value| == 13 + |objects|
  {
    if total >= MAX32 || uncompressed >= MAX32 then None
    else
      var body := [scheme] + LE32(total) + LE32(uncompressed) + objects;
      Some(body + LE32(Adler32.Checksum(body)))
  }

  class Section {
    // Set once, by the constructor.
    const compressionScheme: byte
    const totalSectionLength: nat
    const uncompressedLength: nat
    const objects: seq<byte>
    /** Set by GetData; 0 until then. */
    var checksum: nat

    /** `M3GSection(aObjectList)`: one section object per object, its record
        appended and its length added, one object at a time. */
    constructor (objectList: seq<Obj>, s: Store, ids: IdMap)
      requires IdsFit(ids) && SectionObjects(objectList, s, ids).Some?
      ensures Holds(SectionObjects(objectList, s, ids).value) && checksum == 0
    {
      var sos := SectionObjects(objectList, s, ids).value;
      var data: seq<byte> := [];
      var length: nat := 0;
      for i := 0 to |objectList|
        invariant AllConsistent(sos[..i])
        invariant data == Records(sos[..i])
        invariant length == RecordsLength(sos[..i])
      {
        var lObject := NewSectionObject(objectList[i], s, ids).value;
        RecordsSnoc(sos[..i], lObject);
        TakeOneMore(sos, i);
        data := data + Record(lObject);
        length := length + RecordLength(lObject);
      }
      assert sos[..|objectList|] == sos;
      compressionScheme := 0;
      objects := data;
      uncompressedLength := length;
      totalSectionLength := 13 + length;
      checksum := 0;
    }

    /** The section holds sos, uncompressed: its Objects bytes are their
        records and both lengths count them. */
    ghost predicate Holds(sos: seq<SectionObject>)
    {
      && AllConsistent(sos)
      && compressionScheme == 0
      && objects == Records(sos)
      && uncompressedLength == RecordsLength(sos) == |objects|
      && totalSectionLength == SectionLength(sos)
    }

    /** `getLength`. */
    function GetLength(): nat
    {
      totalSectionLength
    }

    /** `getData`: the section bytes; the checksum is kept in the section. */
    method GetData() returns (data: Option<seq<byte>>)
      modifies this`checksum
      ensures data == SectionImage(compressionScheme, totalSectionLength, uncompressedLength, objects)
      ensures data.Some? ==> checksum == Adler32.Checksum(data.value[..|data.value| - 4])
      ensures data.None? ==> checksum == old(checksum)
    {
      if totalSectionLength >= MAX32 || uncompressedLength >= MAX32 {
        return None;
      }
      var body := [compressionScheme] + LE32(totalSectionLength) + LE32(uncompressedLength) + objects;
      checksum := OwnAdler32(body);
      data := Some(body + LE32(checksum));
      assert data.value[..|data.value| - 4] == body;
    }

    /** `write`: the section's bytes appended to the output. */
    method Write(output: seq<byte>) returns (r: Option<seq<byte>>)
      modifies this`checksum
      ensures r == (match SectionImage(compressionScheme, totalSectionLength, uncompressedLength, objects)
        case Some(d) => Some(output + d)
        case None => None)
      ensures r.Some? ==> |output| + 4 <= |r.value| && checksum == Adler32.Checksum(r.value[|output|..|r.value| - 4])
      ensures r.None? ==> checksum == old(checksum)
    {
      var d := GetData();
      if d.None? {
        return None;
      }
      r := Some(output + d.value);
      assert r.value[|output|..|r.value| - 4] == d.value[..|d.value| - 4];
    }

    /** `ownAdler32`: both running sums are updated byte by byte. */
    method OwnAdler32(data: seq<byte>) returns (r: nat)
      ensures r == Adler32.Checksum(data)
    {
      var s1: nat, s2: nat := 1, 0;
      for i := 0 to |data|
        invariant (s1, s2) == Adler32.Sums(data[..i])
      {
        assert data[..i + 1][..i] == data[..i];
        s1 := (s1 + data[i]) % 65521;
        s2 := (s2 + s1) % 65521;
      }
      assert data[..|data|] == data;
      r := s2 * 0x1_0000 + s1;
    }
  }

  /** A reader of one uncompressed section: the scheme must be 0, the total
      length must cover the 13 bytes of framing and agree with the
      uncompressed length, and the checksum must match. Gives the records
      and the bytes after the section. */
  function ReadSection(b: seq<byte>): (r: Option<(seq<byte>, seq<byte>)>)
    ensures r.Some? ==> |r.value.1| < |b|
  {
    if |b| < 13 || b[0] != 0 then None
    else
      var total := Unsigned(b[1..5]);
      var uncompressed := Unsigned(b[5..9]);
      if total < 13 || |b| < total || uncompressed != total - 13 then None
      else if Unsigned(b[total - 4..total]) != Adler32.Checksum(b[..total - 4]) then None
      else Some((b[9..total - 4], b[total..]))
  }

  /** A section written for some records reads back as those records. */
  lemma SectionRoundTrip(objects: seq<byte>, rest: seq<byte>)
    requires 13 + |objects| < MAX32
    ensures ReadSection(SectionImage(0, 13 + |objects|, |objects|, objects).value + rest)
      == Some((objects, rest))
  {
    var total := 13 + |objects|;
    var body := [0] + LE32(total) + LE32(|objects|) + objects;
    var b := body + LE32(Adler32.Checksum(body)) + rest;
    assert b[1..5] == LE32(total);
    assert b[5..9] == LE32(|objects|);
    assert b[total - 4..total] == LE32(Adler32.Checksum(body));
    assert b[..total - 4] == body;
    assert b[9..total - 4] == objects;
    assert b[total..] == rest;
  }

  /** A reader of the sections that follow the file identifier, each read
      down to its section objects. */
  function ReadSections(b: seq<byte>): Option<seq<seq<SectionObject>>>
    decreases |b|
  {
    if b == [] then Some([])
    else
      match ReadSection(b)
      case None => None
      case Some((objects, rest)) =>
        match (ReadRecords(objects), ReadSections(rest))
        case (Some(sos), Some(more)) => Some([sos] + more)
        case _ => None
  }

  // ----- The file (M3GFileIdentifier, M3GWriter) -----

  /** `M3GFileIdentifier`: the twelve bytes every M3G file starts with. */
  const FileIdentifier: seq<byte> := [0xAB, 0x4A, 0x53, 0x52, 0x31, 0x38, 0x34, 0xBB, 0x0D, 0x0A, 0x1A, 0x0A]

  /** The `AuthoringField` of every header object. */
  const Authoring: string := "Blender M3G Export"

  /** The header object with version 1.0 and the two fields the writer sets. */
  function Header(hasExternalReferences: bool, size: u32): Obj
  {
    HeaderObject((1, 0), hasExternalReferences, size, size, Authoring)
  }

  /** The string field of the authoring text: its 18 ASCII codes and a NUL. */
  function AuthoringField(): (r: seq<byte>)
    ensures |r| == 19
  {
    assert IsAscii(Authoring);
    AsciiCodes(Authoring) + [0]
  }

  lemma AuthoringFieldIs()
    ensures StringField(Authoring) == AuthoringField()
    ensures StringFieldLength(Authoring) == 19
  {
    assert IsAscii(Authoring);
    Utf8OfAscii(Authoring);
  }

  /** The 30 payload bytes of the header object: version 1.0, the flag, the
      size twice and the authoring field. */
  function HeaderPayload(hasExternalReferences: bool, size: u32): (r: seq<byte>)
    ensures |r| == 30
  {
    [1, 0, Bool(hasExternalReferences)] + LE32(size) + LE32(size) + AuthoringField()
  }

  /** The section object of a header. */
  function HeaderRecord(hasExternalReferences: bool, size: u32): (r: SectionObject)
    ensures Consistent(r) && r.objectType == 0 && RecordLength(r) == 35
  {
    SectionObject(0, HeaderPayload(hasExternalReferences, size), 30)
  }

  /** The header object's getData gives the header payload. */
  lemma HeaderEncoded(hasExternalReferences: bool, size: u32, s: Store, ids: IdMap)
    requires IdsFit(ids)
    ensures Packable(Header(hasExternalReferences, size))
    ensures GetData(Header(hasExternalReferences, size), s, ids) == Some(HeaderPayload(hasExternalReferences, size))
  {
    var h := Header(hasExternalReferences, size);
    HeaderDataIs(h, s, ids);
    AuthoringFieldIs();
    assert GetData(h, s, ids) == HeaderData(h, s, ids);
  }

  /** The header object becomes the header's section object. */
  lemma HeaderSectionObject(hasExternalReferences: bool, size: u32, s: Store, ids: IdMap)
    requires IdsFit(ids)
    ensures NewSectionObject(Header(hasExternalReferences, size), s, ids) == Some(HeaderRecord(hasExternalReferences, size))
  {
    HeaderEncoded(hasExternalReferences, size, s, ids);
    AuthoringFieldIs();
  }

  /** A list of one object that can be written has that object's section
      object as its only one. */
  lemma SingleSectionObject(o: Obj, s: Store, ids: IdMap, so: SectionObject)
    requires IdsFit(ids) && NewSectionObject(o, s, ids) == Some(so)
    ensures SectionObjects([o], s, ids) == Some([so])
  {
    assert SectionObjects([o], s, ids) == AllSome([NewSectionObject(o, s, ids)]);
    AllSomeOne(so);
  }

  /** A section of the header object alone holds the header's section object. */
  lemma HeaderSection(hasExternalReferences: bool, size: u32, s: Store, ids: IdMap)
    requires IdsFit(ids)
    ensures SectionObjects([Header(hasExternalReferences, size)], s, ids) == Some([HeaderRecord(hasExternalReferences, size)])
  {
    HeaderSectionObject(hasExternalReferences, size, s, ids);
    SingleSectionObject(Header(hasExternalReferences, size), s, ids, HeaderRecord(hasExternalReferences, size));
  }

  /** `getLength` of a section holding sos. */
  function SectionLength(sos: seq<SectionObject>): nat
  {
    13 + RecordsLength(sos)
  }

  lemma HeaderSectionLength(hasExternalReferences: bool, size: u32)
    ensures AllConsistent([HeaderRecord(hasExternalReferences, size)])
    ensures SectionLength([HeaderRecord(hasExternalReferences, size)]) == 48
  {
    var l := [HeaderRecord(hasExternalReferences, size)];
    assert l[1..] == [];
    assert RecordsLength(l) == RecordLength(l[0]) + RecordsLength([]);
  }

  /** The bytes of a section holding sos. */
  function SectionBytes(sos: seq<SectionObject>): (r: seq<byte>)
    requires AllConsistent(sos) && SectionLength(sos) < MAX32
    ensures |r| == SectionLength(sos)
  {
    SectionImage(0, SectionLength(sos), RecordsLength(sos), Records(sos)).value
  }

  /** The bytes of the header section: 48 whatever the field values. */
  function HeaderSectionBytes(hasExternalReferences: bool, size: u32): (r: seq<byte>)
    ensures |r| == 48
  {
    HeaderSectionLength(hasExternalReferences, size);
    SectionBytes([HeaderRecord(hasExternalReferences, size)])
  }

  /** A section holding sos produces the bytes of sos when its length fits. */
  lemma SectionImageOf(sos: seq<SectionObject>)
    requires AllConsistent(sos)
    ensures SectionImage(0, SectionLength(sos), RecordsLength(sos), Records(sos))
      == if SectionLength(sos) < MAX32 then Some(SectionBytes(sos)) else None
  {
  }

  /** The size the writer computes: the identifier plus the lengths of the
      sections it writes; the header section is 48 bytes whatever its field
      values. */
  function FileLength(scene: seq<SectionObject>, refs: seq<SectionObject>): nat
  {
    |FileIdentifier| + 48 + SectionLength(scene)
      + (if |refs| != 0 then SectionLength(refs) else 0)
  }

  /** The file written for the section objects of the scene and of the
      external references; None when its size does not fit TotalFileSize. */
  function FileBytes(scene: seq<SectionObject>, refs: seq<SectionObject>): (r: Option<seq<byte>>)
    requires AllConsistent(scene) && AllConsistent(refs)
    ensures r.Some? <==> FileLength(scene, refs) < MAX32
    ensures r.Some? ==> |r.value| == FileLength(scene, refs)
  {
    var length := FileLength(scene, refs);
    if length >= MAX32 then None
    else
      var hasExternalReferences := |refs| != 0;
      Some(FileIdentifier
        + HeaderSectionBytes(hasExternalReferences, length)
        + (if hasExternalReferences then SectionBytes(refs) else [])
        + SectionBytes(scene))
  }

  /** The file `M3GWriter.writeFile` writes; None when an object cannot be
      written or the file size does not fit the UInt32 TotalFileSize. */
  function FileImage(exportList: seq<Obj>, externalReferences: seq<Obj>, s: Store, ids: IdMap): Option<seq<byte>>
    requires IdsFit(ids)
  {
    match (SectionObjects(exportList, s, ids), SectionObjects(externalReferences, s, ids))
    case (Some(scene), Some(refs)) => FileBytes(scene, refs)
    case _ => None
  }

  /** The file is the identifier followed by the three sections' bytes. */
  lemma FileBytesOf(scene: seq<SectionObject>, refs: seq<SectionObject>, d0: seq<byte>, d1: seq<byte>, dN: seq<byte>)
    requires AllConsistent(scene) && AllConsistent(refs) && FileLength(scene, refs) < MAX32
    requires d0 == HeaderSectionBytes(|refs| != 0, FileLength(scene, refs))
    requires d1 == (if |refs| != 0 then SectionBytes(refs) else [])
    requires dN == SectionBytes(scene)
    ensures FileBytes(scene, refs) == Some(FileIdentifier + d0 + d1 + dN)
  {
  }

  lemma FileImageOf(exportList: seq<Obj>, externalReferences: seq<Obj>, s: Store, ids: IdMap,
                    scene: seq<SectionObject>, refs: seq<SectionObject>)
    requires IdsFit(ids)
    requires SectionObjects(exportList, s, ids) == Some(scene)
    requires SectionObjects(externalReferences, s, ids) == Some(refs)
    ensures FileImage(exportList, externalReferences, s, ids) == FileBytes(scene, refs)
  {
  }

  /** `M3GWriter.writeFile`: the header section is measured with a blank
      header, the sizes are added up, and the header section is rebuilt with
      the size and the external-reference flag filled in. */
  method WriteFile(exportList: seq<Obj>, externalReferences: seq<Obj>, s: Store, ids: IdMap)
    returns (file: Option<seq<byte>>)
    requires IdsFit(ids)
    ensures file == FileImage(exportList, externalReferences, s, ids)
  {
    var scene := SectionObjects(exportList, s, ids);
    var refs := SectionObjects(externalReferences, s, ids);
    if scene.None? || refs.None? {
      // a section constructor raises before anything is written
      return None;
    }
    ghost var sc, rf := scene.value, refs.value;
    var fileHeaderObject, section1, sectionN, length := MeasureSections(exportList, externalReferences, s, ids, sc, rf);
    if length >= MAX32 {
      // TotalFileSize does not pack
      return None;
    }
    fileHeaderObject := fileHeaderObject.(totalFileSize := length, approximateContentSize := length);
    ghost var hasExternalReferences := |externalReferences| != 0;
    var section0 := NewHeaderSection(fileHeaderObject, hasExternalReferences, length, s, ids);
    var bytes := WriteSections(section0, section1, sectionN, [HeaderRecord(hasExternalReferences, length)], rf, sc);
    file := Some(bytes);
    FileImageOf(exportList, externalReferences, s, ids, sc, rf);
    FileBytesOf(sc, rf, HeaderSectionBytes(hasExternalReferences, length),
      if hasExternalReferences then SectionBytes(rf) else [], SectionBytes(sc));
  }

  /** The first half of `writeFile`: the sections are built, with a blank
      header in section 0, and their lengths added to the identifier's. */
  method MeasureSections(exportList: seq<Obj>, externalReferences: seq<Obj>, s: Store, ids: IdMap,
                         ghost scene: seq<SectionObject>, ghost refs: seq<SectionObject>)
    returns (fileHeaderObject: Obj, section1: Section?, sectionN: Section, length: nat)
    requires IdsFit(ids)
    requires SectionObjects(exportList, s, ids) == Some(scene)
    requires SectionObjects(externalReferences, s, ids) == Some(refs)
    ensures fresh(sectionN) && sectionN.Holds(scene)
    ensures section1 != null <==> |externalReferences| != 0
    ensures section1 != null ==> fresh(section1) && section1.Holds(refs)
    ensures fileHeaderObject == Header(|externalReferences| != 0, 0)
    ensures length == FileLength(scene, refs)
  {
    var fileIdentifier := FileIdentifier;
    fileHeaderObject := Header(false, 0);
    var section0 := NewHeaderSection(fileHeaderObject, false, 0, s, ids);
    sectionN := new Section(exportList, s, ids);
    length := |fileIdentifier|;
    length := length + section0.GetLength();
    length := length + sectionN.GetLength();
    section1 := null;
    if |externalReferences| != 0 {
      section1 := new Section(externalReferences, s, ids);
      length := length + section1.GetLength();
      fileHeaderObject := fileHeaderObject.(hasExternalReferences := true);
    }
  }

  /** `M3GSection([fileHeaderObject])`: the section of the header alone. */
  method NewHeaderSection(fileHeaderObject: Obj, ghost hasExternalReferences: bool, ghost size: u32, s: Store, ids: IdMap)
    returns (section: Section)
    requires IdsFit(ids) && fileHeaderObject == Header(hasExternalReferences, size)
    ensures fresh(section) && section.checksum == 0
    ensures section.Holds([HeaderRecord(hasExternalReferences, size)])
    ensures section.GetLength() == 48
  {
    HeaderSection(hasExternalReferences, size, s, ids);
    HeaderSectionLength(hasExternalReferences, size);
    section := new Section([fileHeaderObject], s, ids);
  }

  /** The checksum a section written for sos ends with: Adler-32 of all its
      bytes before the checksum field. */
  function SectionChecksum(sos: seq<SectionObject>): (r: nat)
    requires AllConsistent(sos) && SectionLength(sos) < MAX32
    ensures r < 0x1_0000_0000
    ensures SectionBytes(sos)[|SectionBytes(sos)| - 4..] == LE32(r)
  {
    SectionImageOf(sos);
    var objects := Records(sos);
    var body := [0] + LE32(13 + |objects|) + LE32(|objects|) + objects;
    assert SectionBytes(sos) == body + LE32(Adler32.Checksum(body));
    assert SectionBytes(sos)[..|SectionBytes(sos)| - 4] == body;
    Adler32.Checksum(SectionBytes(sos)[..|SectionBytes(sos)| - 4])
  }

  /** The checksum left by writing the section of sos behind output. */
  lemma ChecksumOfWritten(sos: seq<SectionObject>, output: seq<byte>, written: seq<byte>)
    requires AllConsistent(sos) && SectionLength(sos) < MAX32
    requires written == output + SectionBytes(sos)
    ensures |output| + 4 <= |written|
    ensures Adler32.Checksum(written[|output|..|written| - 4]) == SectionChecksum(sos)
  {
    assert written[|output|..|written| - 4] == SectionBytes(sos)[..|SectionBytes(sos)| - 4];
  }

  /** `write` of a section that holds sos: its bytes follow the output and
      its checksum is the one they end with. */
  method WriteSection(section: Section, ghost sos: seq<SectionObject>, output: seq<byte>) returns (written: seq<byte>)
    requires section.Holds(sos) && SectionLength(sos) < MAX32
    modifies section`checksum
    ensures written == output + SectionBytes(sos)
    ensures section.checksum == SectionChecksum(sos)
  {
    SectionImageOf(sos);
    var w := section.Write(output);
    ChecksumOfWritten(sos, output, w.value);
    written := w.value;
  }

  /** The writing of the sections, in file order, after the identifier. */
  method WriteSections(section0: Section, section1: Section?, sectionN: Section,
                       ghost header: seq<SectionObject>, ghost refs: seq<SectionObject>, ghost scene: seq<SectionObject>)
    returns (file: seq<byte>)
    requires section0.Holds(header) && SectionLength(header) < MAX32
    requires section1 != null ==> section1.Holds(refs) && SectionLength(refs) < MAX32
    requires sectionN.Holds(scene) && SectionLength(scene) < MAX32
    modifies section0`checksum, if section1 != null then {section1} else {}, sectionN`checksum
    ensures file == FileIdentifier + SectionBytes(header)
      + (if section1 != null then SectionBytes(refs) else []) + SectionBytes(scene)
    ensures section0 != section1 && section0 != sectionN ==> section0.checksum == SectionChecksum(header)
    ensures section1 != null && section1 != sectionN ==> section1.checksum == SectionChecksum(refs)
    ensures sectionN.checksum == SectionChecksum(scene)
  {
    var output := WriteSection(section0, header, FileIdentifier);
    if section1 != null {
      output := WriteSection(section1, refs, output);
    }
    file := WriteSection(sectionN, scene, output);
  }

  /** A reader of a whole file: the identifier, then the sections. */
  function ReadFile(b: seq<byte>): Option<seq<seq<SectionObject>>>
  {
    if |b| < 12 || b[..12] != FileIdentifier then None else ReadSections(b[12..])
  }

  /** A section written for sos, followed by more bytes, reads back as sos
      followed by what those bytes read back as. */
  lemma SectionsRoundTrip(sos: seq<SectionObject>, rest: seq<byte>, more: seq<seq<SectionObject>>)
    requires AllConsistent(sos) && SectionLength(sos) < MAX32
    requires ReadSections(rest) == Some(more)
    ensures ReadSections(SectionBytes(sos) + rest) == Some([sos] + more)
  {
    var objects := Records(sos);
    var b := SectionBytes(sos) + rest;
    assert SectionBytes(sos) == SectionImage(0, 13 + |objects|, |objects|, objects).value;
    SectionRoundTrip(objects, rest);
    assert ReadSection(b) == Some((objects, rest));
    RecordsRoundTrip(sos);
    assert ReadRecords(objects) == Some(sos);
  }

  /** The sections after the header read back as the external references,
      when there are any, and the scene. */
  lemma BodySections(scene: seq<SectionObject>, refs: seq<SectionObject>)
    requires AllConsistent(scene) && SectionLength(scene) < MAX32
    requires AllConsistent(refs) && (|refs| != 0 ==> SectionLength(refs) < MAX32)
    ensures ReadSections((if |refs| != 0 then SectionBytes(refs) else []) + SectionBytes(scene))
      == Some((if |refs| != 0 then [refs] else []) + [scene])
  {
    var secN := SectionBytes(scene);
    var none: seq<seq<SectionObject>> := [];
    SectionsRoundTrip(scene, [], none);
    assert secN + [] == secN;
    assert [scene] + none == [scene];
    if |refs| != 0 {
      SectionsRoundTrip(refs, secN, [scene]);
    } else {
      assert [] + secN == secN;
      assert [] + [scene] == [scene];
    }
  }

  lemma Regroup(a: seq<byte>, b: seq<byte>, c: seq<byte>, d: seq<byte>)
    ensures a + b + c + d == a + (b + (c + d))
  {
    assert a + b + c == a + (b + c);
    assert a + (b + c) + d == a + (b + c + d);
    assert b + c + d == b + (c + d);
  }

  /** The written file is the identifier, the header section and the
      sections after it. */
  lemma FileLayout(scene: seq<SectionObject>, refs: seq<SectionObject>)
    requires AllConsistent(scene) && AllConsistent(refs) && FileBytes(scene, refs).Some?
    ensures var f := FileBytes(scene, refs).value;
      && AllConsistent([HeaderRecord(|refs| != 0, |f|)])
      && SectionLength([HeaderRecord(|refs| != 0, |f|)]) == 48
      && SectionLength(scene) < MAX32 && (|refs| != 0 ==> SectionLength(refs) < MAX32)
      && |f| >= 12 && f[..12] == FileIdentifier
      && f[12..] == HeaderSectionBytes(|refs| != 0, |f|)
        + ((if |refs| != 0 then SectionBytes(refs) else []) + SectionBytes(scene))
  {
    var f := FileBytes(scene, refs).value;
    var hasExternalReferences := |refs| != 0;
    HeaderSectionLength(hasExternalReferences, |f|);
    var sec0 := HeaderSectionBytes(hasExternalReferences, |f|);
    var sec1 := if hasExternalReferences then SectionBytes(refs) else [];
    var secN := SectionBytes(scene);
    assert f == FileIdentifier + sec0 + sec1 + secN;
    Regroup(FileIdentifier, sec0, sec1, secN);
  }

  /** Bytes laid out as FileLayout describes read back as the header, the
      external references when there are any, and the scene. */
  lemma ReadLaidOutFile(scene: seq<SectionObject>, refs: seq<SectionObject>, f: seq<byte>)
    requires AllConsistent(scene) && SectionLength(scene) < MAX32
    requires AllConsistent(refs) && (|refs| != 0 ==> SectionLength(refs) < MAX32)
    requires |f| < MAX32 && AllConsistent([HeaderRecord(|refs| != 0, |f|)])
    requires SectionLength([HeaderRecord(|refs| != 0, |f|)]) < MAX32
    requires |f| >= 12 && f[..12] == FileIdentifier
    requires f[12..] == HeaderSectionBytes(|refs| != 0, |f|)
      + ((if |refs| != 0 then SectionBytes(refs) else []) + SectionBytes(scene))
    ensures ReadFile(f) == Some([[HeaderRecord(|refs| != 0, |f|)]] + (if |refs| != 0 then [refs] else []) + [scene])
  {
    var hasExternalReferences := |refs| != 0;
    var h := [HeaderRecord(hasExternalReferences, |f|)];
    HeaderSectionLength(hasExternalReferences, |f|);
    var body := (if hasExternalReferences then SectionBytes(refs) else []) + SectionBytes(scene);
    var tail := (if hasExternalReferences then [refs] else []) + [scene];
    BodySections(scene, refs);
    SectionsRoundTrip(h, body, tail);
    assert f[12..] == SectionBytes(h) + body;
    assert ReadFile(f) == Some([h] + tail);
    SectionListsAssociate(h, if hasExternalReferences then [refs] else [], scene);
  }

  lemma SectionListsAssociate(h: seq<SectionObject>, middle: seq<seq<SectionObject>>, scene: seq<SectionObject>)
    ensures [h] + (middle + [scene]) == [h] + middle + [scene]
  {
  }

  /** The written file reads back as its sections' objects: the header, whose
      TotalFileSize is the length of the file, the external references when
      there are any, and the scene. */
  lemma FileRoundTrip(scene: seq<SectionObject>, refs: seq<SectionObject>)
    requires AllConsistent(scene) && AllConsistent(refs) && FileBytes(scene, refs).Some?
    ensures var f := FileBytes(scene, refs).value;
      |f| < MAX32
      && ReadFile(f) == Some(
        [[HeaderRecord(|refs| != 0, |f|)]]
        + (if |refs| != 0 then [refs] else [])
        + [scene])
  {
    var f := FileBytes(scene, refs).value;
    FileLayout(scene, refs);
    ReadLaidOutFile(scene, refs, f);
  }

  /** The file written for an export list and its external references reads
      back as the header, the external references' records when there are
      any, and one record per object of the export list. */
  lemma FileReadsBack(exportList: seq<Obj>, externalReferences: seq<Obj>, s: Store, ids: IdMap,
                      f: seq<byte>, scene: seq<SectionObject>, refs: seq<SectionObject>)
    requires IdsFit(ids) && FileImage(exportList, externalReferences, s, ids) == Some(f)
    requires SectionObjects(exportList, s, ids) == Some(scene)
    requires SectionObjects(externalReferences, s, ids) == Some(refs)
    ensures |f| < MAX32
    ensures |scene| == |exportList| && |refs| == |externalReferences|
    ensures ReadFile(f) == Some(
      [[HeaderRecord(|externalReferences| != 0, |f|)]]
      + (if |externalReferences| != 0 then [refs] else [])
      + [scene])
  {
    FileImageOf(exportList, externalReferences, s, ids, scene, refs);
    FileRoundTrip(scene, refs);
  }
}
