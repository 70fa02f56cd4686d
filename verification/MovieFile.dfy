// The raw QuickTime movie writers (prepare_v02_crop_dataset.py, prepare_v02_sampling_dataset.py)
// and the readers of the benchmarks (run_v02_crop_benchmark.py, run_v02_sampling_benchmark.py).
module MovieFile {
  import opened Wrappers
  import opened Bytes
  import opened QuickTimeAtoms
  import opened TimeTable

  const FTYP: seq<Byte> := [102, 116, 121, 112]
  const MDAT: seq<Byte> := [109, 100, 97, 116]
  const MOOV: seq<Byte> := [109, 111, 111, 118]
  const MVHD: seq<Byte> := [109, 118, 104, 100]
  const TRAK: seq<Byte> := [116, 114, 97, 107]
  const TKHD: seq<Byte> := [116, 107, 104, 100]
  const MDIA: seq<Byte> := [109, 100, 105, 97]
  const MDHD: seq<Byte> := [109, 100, 104, 100]
  const HDLR: seq<Byte> := [104, 100, 108, 114]
  const MINF: seq<Byte> := [109, 105, 110, 102]
  const VMHD: seq<Byte> := [118, 109, 104, 100]
  const DINF: seq<Byte> := [100, 105, 110, 102]
  const DREF: seq<Byte> := [100, 114, 101, 102]
  const URL: seq<Byte> := [117, 114, 108, 32]
  const STBL: seq<Byte> := [115, 116, 98, 108]
  const STSD: seq<Byte> := [115, 116, 115, 100]
  const STTS: seq<Byte> := [115, 116, 116, 115]
  const STSC: seq<Byte> := [115, 116, 115, 99]
  const STSZ: seq<Byte> := [115, 116, 115, 122]
  const STCO: seq<Byte> := [115, 116, 99, 111]
  const RAW: seq<Byte> := [114, 97, 119, 32]
  const VIDE: seq<Byte> := [118, 105, 100, 101]
  const BRAND: seq<Byte> := [113, 116, 32, 32]
  const VIDEO_NAME: seq<Byte> := [86, 105, 100, 101, 111, 0]
  // "VisualWorld RGB", preceded by its length
  const COMPRESSOR: seq<Byte> := [15, 86, 105, 115, 117, 97, 108, 87, 111, 114, 108, 100, 32, 82, 71, 66]

  // What a movie says about its frames.
  datatype Description = Description(width: nat, height: nat, frames: nat, duration: nat, entries: seq<Run>)

  function FrameSize(width: nat, height: nat): nat {
    width * height * 3
  }

  function Zeros(n: nat): (r: seq<Byte>)
    ensures |r| == n
  {
    if n == 0 then [] else [0] + Zeros(n - 1)
  }

  function Matrix(): (r: seq<Byte>)
    ensures |r| == 36
  {
    U32(0x1_0000) + U32(0) + U32(0) + U32(0) + U32(0x1_0000) + U32(0) + U32(0) + U32(0) + U32(0x4000_0000)
  }

  // ----- the atoms of a movie, innermost first -----

  function EntryStart(): (r: seq<Byte>)
    ensures |r| == 24
  {
    Zeros(6) + U16(1) + Zeros(16)
  }

  function EntryRest(): (r: seq<Byte>)
    ensures |r| == 50
  {
    U32(0x48_0000) + U32(0x48_0000) + U32(0) + U16(1) + COMPRESSOR + Zeros(16) + U16(24) + [255, 255]
  }

  function SampleEntry(d: Description): (a: Atom)
    ensures |a.kind| == 4 && |a.payload| == 78
  {
    Atom(RAW, EntryStart() + U16(d.width) + U16(d.height) + EntryRest())
  }

  function RunBytes(entries: seq<Run>): (r: seq<Byte>)
    ensures |r| == 8 * |entries|
  {
    if entries == [] then [] else U32(entries[0].count) + U32(entries[0].delta) + RunBytes(entries[1..])
  }

  function TimeAtom(d: Description): (a: Atom)
    ensures |a.kind| == 4 && |a.payload| == 8 + 8 * |d.entries|
  {
    FullBox(STTS, 0, 0, U32(|d.entries|) + RunBytes(d.entries))
  }

  function ChunkFields(d: Description): (r: seq<Byte>)
    ensures |r| == 16
  {
    U32(1) + U32(1) + U32(d.frames) + U32(1)
  }

  function ChunkAtom(d: Description): (a: Atom)
    ensures |a.kind| == 4 && |a.payload| == 20
  {
    FullBox(STSC, 0, 0, ChunkFields(d))
  }

  function SizeAtom(d: Description): (a: Atom)
    ensures |a.kind| == 4 && |a.payload| == 12
  {
    FullBox(STSZ, 0, 0, U32(FrameSize(d.width, d.height)) + U32(d.frames))
  }

  function OffsetAtom(): (a: Atom)
    ensures |a.kind| == 4 && |a.payload| == 12
  {
    FullBox(STCO, 0, 0, U32(1) + U32(|Encode(FileType())| + 8))
  }

  function SampleTable(d: Description): (r: seq<Atom>)
    ensures FourByteKinds(r) && |r| == 5 && |EncodeAll(r)| == 186 + 8 * |d.entries|
  {
    var stsd := FullBox(STSD, 0, 0, U32(1) + Encode(SampleEntry(d)));
    var r := [stsd, TimeAtom(d), ChunkAtom(d), SizeAtom(d), OffsetAtom()];
    EncodedLength5(r);
    r
  }

  function MediaInformation(d: Description): (r: seq<Atom>)
    ensures FourByteKinds(r) && |r| == 3 && |EncodeAll(r)| == 250 + 8 * |d.entries|
  {
    var vmhd := FullBox(VMHD, 0, 1, Zeros(8));
    var dref := FullBox(DREF, 0, 0, U32(1) + Encode(FullBox(URL, 0, 1, [])));
    var r := [vmhd, Atom(DINF, Encode(dref)), Atom(STBL, EncodeAll(SampleTable(d)))];
    EncodedLength3(r);
    r
  }

  // Times of creation and change, ticks a second, and duration.
  function Clock(d: Description): (r: seq<Byte>)
    ensures |r| == 16
  {
    U32(0) + U32(0) + U32(1000) + U32(d.duration)
  }

  function Language(): (r: seq<Byte>)
    ensures |r| == 4
  {
    U16(0x55C4) + U16(0)
  }

  function MovieRest(): (r: seq<Byte>)
    ensures |r| == 80
  {
    U32(0x1_0000) + U16(0x100) + Zeros(10) + Matrix() + Zeros(24) + U32(2)
  }

  function MediaHeader(d: Description): (a: Atom)
    ensures |a.kind| == 4 && |a.payload| == 24
  {
    FullBox(MDHD, 0, 0, Clock(d) + Language())
  }

  function Media(d: Description): (r: seq<Atom>)
    ensures FourByteKinds(r) && |r| == 3 && |EncodeAll(r)| == 328 + 8 * |d.entries|
  {
    var hdlr := FullBox(HDLR, 0, 0, U32(0) + VIDE + Zeros(12) + VIDEO_NAME);
    var r := [MediaHeader(d), hdlr, Atom(MINF, EncodeAll(MediaInformation(d)))];
    EncodedLength3(r);
    r
  }

  function TrackStart(): (r: seq<Byte>)
    ensures |r| == 16
  {
    U32(0) + U32(0) + U32(1) + U32(0)
  }

  function Placement(): (r: seq<Byte>)
    ensures |r| == 52
  {
    Zeros(8) + Zeros(8) + Matrix()
  }

  function TrackFields(d: Description): (r: seq<Byte>)
    ensures |r| == 80
  {
    TrackStart() + U32(d.duration) + Placement() + U32(d.width * 0x1_0000) + U32(d.height * 0x1_0000)
  }

  function TrackHeader(d: Description): (a: Atom)
    ensures |a.kind| == 4 && |a.payload| == 84
  {
    FullBox(TKHD, 0, 7, TrackFields(d))
  }

  function Track(d: Description): (r: seq<Atom>)
    ensures FourByteKinds(r) && |r| == 2 && |EncodeAll(r)| == 428 + 8 * |d.entries|
  {
    var r := [TrackHeader(d), Atom(MDIA, EncodeAll(Media(d)))];
    EncodedLength2(r);
    r
  }

  function MovieHeader(d: Description): (a: Atom)
    ensures |a.kind| == 4 && |a.payload| == 100
  {
    FullBox(MVHD, 0, 0, Clock(d) + MovieRest())
  }

  function Header(d: Description): (r: seq<Atom>)
    ensures FourByteKinds(r) && |r| == 2 && |EncodeAll(r)| == 544 + 8 * |d.entries|
  {
    var r := [MovieHeader(d), Atom(TRAK, EncodeAll(Track(d)))];
    EncodedLength2(r);
    r
  }

  function FileType(): (a: Atom)
    ensures |a.kind| == 4 && |a.payload| == 12
  {
    Atom(FTYP, BRAND + U32(0) + BRAND)
  }

  function Join(frames: seq<seq<Byte>>): seq<Byte> {
    if frames == [] then [] else frames[0] + Join(frames[1..])
  }

  lemma {:induction false} JoinLength(frames: seq<seq<Byte>>, size: nat)
    requires FramesFit(frames, size)
    ensures |Join(frames)| == |frames| * size
  {
    if frames == [] {
    } else {
      JoinLength(frames[1..], size);
      assert |frames| * size == size + (|frames| - 1) * size;
    }
  }

  function TopLevel(frames: seq<seq<Byte>>, d: Description): (r: seq<Atom>)
    ensures FourByteKinds(r) && |r| == 3 && |EncodeAll(r)| == 580 + 8 * |d.entries| + |Join(frames)|
  {
    var r := [FileType(), Atom(MDAT, Join(frames)), Atom(MOOV, EncodeAll(Header(d)))];
    EncodedLength3(r);
    r
  }

  function MovieBytes(frames: seq<seq<Byte>>, d: Description): seq<Byte> {
    EncodeAll(TopLevel(frames, d))
  }

  lemma {:induction false} EncodedLength2(r: seq<Atom>)
    requires |r| == 2
    ensures |EncodeAll(r)| == |Encode(r[0])| + |Encode(r[1])|
  {
    assert r[1..][1..] == [];
    assert EncodeAll(r[1..]) == Encode(r[1]) + EncodeAll(r[1..][1..]);
  }

  lemma {:induction false} EncodedLength3(r: seq<Atom>)
    requires |r| == 3
    ensures |EncodeAll(r)| == |Encode(r[0])| + |Encode(r[1])| + |Encode(r[2])|
  {
    EncodedLength2(r[1..]);
  }

  lemma {:induction false} EncodedLength5(r: seq<Atom>)
    requires |r| == 5
    ensures |EncodeAll(r)| == |Encode(r[0])| + |Encode(r[1])| + |Encode(r[2])| + |Encode(r[3])| + |Encode(r[4])|
  {
    EncodedLength3(r[2..]);
    assert r[1..][1..] == r[2..];
  }

  // ----- the writers -----

  ghost predicate FramesFit(frames: seq<seq<Byte>>, size: nat) {
    forall i :: 0 <= i < |frames| ==> |frames[i]| == size
  }

  const FRAME_DURATION_MS := 1000

  function CropDescription(width: nat, height: nat): Description {
    Description(width, height, 3, 3 * FRAME_DURATION_MS, [Run(3, FRAME_DURATION_MS)])
  }

  // rawvideo_movie: three frames of one second each.
  method RawvideoMovie(frames: seq<seq<Byte>>, width: int, height: int) returns (r: Result<seq<Byte>, string>)
    ensures r.Ok? <==>
              1 <= width <= 4096 && 1 <= height <= 4096 && |frames| == 3 && FramesFit(frames, width * height * 3)
    ensures r.Ok? ==> r.value == MovieBytes(frames, CropDescription(width, height)) && |r.value| <= 0xFFFF_FFFF
  {
    if !(1 <= width <= 4096 && 1 <= height <= 4096) || |frames| != 3
       || exists i :: 0 <= i < |frames| && |frames[i]| != FrameSize(width, height)
    {
      return Err("clip_generation_failed");
    }
    FrameSizeBound(width, height);
    JoinLength(frames, FrameSize(width, height));
    return Ok(MovieBytes(frames, CropDescription(width, height)));
  }

  lemma {:induction false} FrameSizeBound(width: nat, height: nat)
    requires width <= 4096 && height <= 4096
    ensures FrameSize(width, height) <= 4096 * 4096 * 3
  {
    assert width * height <= 4096 * height;
  }

  // The two clip writers differ in the frame size and in the largest file they accept.
  datatype Format = Format(width: nat, height: nat, limit: nat)

  const SAMPLING := Format(384, 216, 32 * 1024 * 1024)
  const TRACKING := Format(640, 360, 48 * 1024 * 1024)

  function FormatSize(f: Format): nat {
    FrameSize(f.width, f.height)
  }

  function ClipDescription(f: Format, frames: nat, durations: seq<nat>, entries: seq<Run>): Description {
    Description(f.width, f.height, frames, Total(durations), entries)
  }

  // The clip writer: any frames of the fixed size, with their durations.  Durations that
  // overflow the 32-bit header fields cannot be packed.
  method ClipMovie(
    f: Format, frames: seq<seq<Byte>>, durations: seq<nat>)
    returns (r: Result<seq<Byte>, string>, entries: seq<Run>)
    requires f == SAMPLING || f == TRACKING
    ensures Expand(entries) == durations && Minimal(entries)
    ensures r.Ok? <==> |frames| == |durations| && FramesFit(frames, if f == SAMPLING then 248_832 else 691_200)
                       && Total(durations) <= 0xFFFF_FFFF
                       && |MovieBytes(frames, ClipDescription(f, |frames|, durations, entries))| <= f.limit
    ensures r.Ok? ==> r.value == MovieBytes(frames, ClipDescription(f, |frames|, durations, entries))
    ensures r.Ok? ==> RunsFit(entries) && |frames| < Power(256, 4)
  {
    assert FormatSize(f) == if f == SAMPLING then 248_832 else 691_200;
    entries := TimeEntries(durations);
    if |frames| != |durations| || exists i :: 0 <= i < |frames| && |frames[i]| != FormatSize(f) {
      return Err("clip_generation_failed"), entries;
    }
    if Total(durations) > 0xFFFF_FFFF { return Err("struct.error"), entries; }
    var movie := MovieBytes(frames, ClipDescription(f, |frames|, durations, entries));
    if |movie| > f.limit { return Err("clip_generation_failed"), entries; }
    FewFrames(f, frames, ClipDescription(f, |frames|, durations, entries));
    RunsBounded(entries);
    Powers();
    return Ok(movie), entries;
  }

  lemma {:induction false} FewFrames(f: Format, frames: seq<seq<Byte>>, d: Description)
    requires (f == SAMPLING || f == TRACKING) && FramesFit(frames, FormatSize(f)) && |MovieBytes(frames, d)| <= f.limit
    ensures |frames| <= f.limit
  {
    JoinLength(frames, FormatSize(f));
    assert |frames| * FormatSize(f) <= f.limit;
    assert FormatSize(f) >= 1;
    assert |frames| <= |frames| * FormatSize(f);
  }

  // ----- reading tables back -----

  function StblPath(kind: seq<Byte>): seq<seq<Byte>> {
    [MOOV] + ([TRAK] + ([MDIA] + ([MINF] + ([STBL] + [kind]))))
  }

  function ReadRuns(raw: seq<Byte>): seq<Run> {
    if |raw| < 8 then [] else [Run(Unsigned(raw[..4]), Unsigned(raw[4..8]))] + ReadRuns(raw[8..])
  }

  // Skips version, flags and the entry count.
  function ReadTimeTable(payload: seq<Byte>): seq<Run>
    requires |payload| >= 8
  {
    ReadRuns(payload[8..])
  }

  ghost predicate RunsFit(entries: seq<Run>) {
    forall i :: 0 <= i < |entries| ==> entries[i].count < Power(256, 4) && entries[i].delta < Power(256, 4)
  }

  lemma {:induction false} RunsReadBack(entries: seq<Run>)
    requires RunsFit(entries)
    ensures ReadRuns(RunBytes(entries)) == entries
  {
    if entries == [] {
    } else {
      var raw := RunBytes(entries);
      RunsReadBack(entries[1..]);
      BigEndianRoundTrip(entries[0].count, 4);
      BigEndianRoundTrip(entries[0].delta, 4);
      assert raw[..4] == U32(entries[0].count) && raw[4..8] == U32(entries[0].delta)
        && raw[8..] == RunBytes(entries[1..]);
    }
  }

  lemma {:induction false} ChildOfList(atoms: seq<Atom>, kind: seq<Byte>, payload: seq<Byte>)
    requires FourByteKinds(atoms) && |EncodeAll(atoms)| <= 0xFFFF_FFFF
    requires First(atoms, kind) == Some(payload)
    ensures Child(EncodeAll(atoms), kind) == Some(payload)
  {
    ParseWithin(atoms, |EncodeAll(atoms)|);
  }

  lemma {:induction false} Second(atoms: seq<Atom>, kind: seq<Byte>)
    requires FourByteKinds(atoms) && |EncodeAll(atoms)| <= 0xFFFF_FFFF
    requires |atoms| >= 2 && atoms[0].kind != kind && atoms[1].kind == kind
    ensures Child(EncodeAll(atoms), kind) == Some(atoms[1].payload)
  {
    assert First(atoms[1..], kind) == Some(atoms[1].payload);
    ChildOfList(atoms, kind, atoms[1].payload);
  }

  lemma {:induction false} Third(atoms: seq<Atom>, kind: seq<Byte>)
    requires FourByteKinds(atoms) && |EncodeAll(atoms)| <= 0xFFFF_FFFF
    requires |atoms| >= 3 && atoms[0].kind != kind && atoms[1].kind != kind && atoms[2].kind == kind
    ensures Child(EncodeAll(atoms), kind) == Some(atoms[2].payload)
  {
    assert First(atoms[1..][1..], kind) == Some(atoms[2].payload);
    assert First(atoms[1..], kind) == Some(atoms[2].payload);
    ChildOfList(atoms, kind, atoms[2].payload);
  }

  lemma {:induction false} HeaderIsFound(frames: seq<seq<Byte>>, d: Description)
    requires |MovieBytes(frames, d)| <= 0xFFFF_FFFF
    ensures Child(MovieBytes(frames, d), MOOV) == Some(EncodeAll(Header(d)))
    ensures Child(MovieBytes(frames, d), MDAT) == Some(Join(frames))
  {
    var atoms := TopLevel(frames, d);
    Second(atoms, MDAT);
    Third(atoms, MOOV);
  }

  lemma {:induction false} MediaIsFound(d: Description)
    requires |EncodeAll(Header(d))| <= 0xFFFF_FFFF
    ensures Child(EncodeAll(Header(d)), TRAK) == Some(EncodeAll(Track(d)))
    ensures Child(EncodeAll(Track(d)), MDIA) == Some(EncodeAll(Media(d)))
  {
    Second(Header(d), TRAK);
    Second(Track(d), MDIA);
  }

  lemma {:induction false} InformationIsFound(d: Description)
    requires |EncodeAll(Media(d))| <= 0xFFFF_FFFF
    ensures Child(EncodeAll(Media(d)), MINF) == Some(EncodeAll(MediaInformation(d)))
    ensures Child(EncodeAll(MediaInformation(d)), STBL) == Some(EncodeAll(SampleTable(d)))
  {
    Third(Media(d), MINF);
    Third(MediaInformation(d), STBL);
  }

  lemma {:induction false} DescendStep(raw: seq<Byte>, kind: seq<Byte>, path: seq<seq<Byte>>, payload: seq<Byte>)
    requires Child(raw, kind) == Some(payload)
    ensures Descend(raw, [kind] + path) == Descend(payload, path)
  {}

  // A generic reader finds the sample table by descending through the atoms.
  lemma {:induction false} StblIsFound(frames: seq<seq<Byte>>, d: Description, kind: seq<Byte>)
    requires |MovieBytes(frames, d)| <= 0xFFFF_FFFF
    ensures Descend(MovieBytes(frames, d), StblPath(kind)) == Child(EncodeAll(SampleTable(d)), kind)
  {
    HeaderIsFound(frames, d);
    MediaIsFound(d);
    InformationIsFound(d);
    DescendStep(MovieBytes(frames, d), MOOV, [TRAK] + ([MDIA] + ([MINF] + ([STBL] + [kind]))), EncodeAll(Header(d)));
    DescendStep(EncodeAll(Header(d)), TRAK, [MDIA] + ([MINF] + ([STBL] + [kind])), EncodeAll(Track(d)));
    DescendStep(EncodeAll(Track(d)), MDIA, [MINF] + ([STBL] + [kind]), EncodeAll(Media(d)));
    DescendStep(EncodeAll(Media(d)), MINF, [STBL] + [kind], EncodeAll(MediaInformation(d)));
    DescendStep(EncodeAll(MediaInformation(d)), STBL, [kind], EncodeAll(SampleTable(d)));
    SingleDescend(EncodeAll(SampleTable(d)), kind);
  }

  lemma {:induction false} SingleDescend(raw: seq<Byte>, kind: seq<Byte>)
    ensures Descend(raw, [kind]) == Child(raw, kind)
  {}

  lemma {:induction false} TablesAreFound(d: Description)
    requires |EncodeAll(SampleTable(d))| <= 0xFFFF_FFFF
    ensures Child(EncodeAll(SampleTable(d)), STTS) == Some(TimeAtom(d).payload)
    ensures Child(EncodeAll(SampleTable(d)), STSZ) == Some(SizeAtom(d).payload)
    ensures Child(EncodeAll(SampleTable(d)), STCO) == Some(OffsetAtom().payload)
  {
    var atoms := SampleTable(d);
    Second(atoms, STTS);
    assert First(atoms[1..][1..][1..], STSZ) == Some(SizeAtom(d).payload);
    assert First(atoms[1..][1..], STSZ) == First(atoms[1..], STSZ) == First(atoms, STSZ) == Some(SizeAtom(d).payload);
    ChildOfList(atoms, STSZ, SizeAtom(d).payload);
    assert First(atoms[1..][1..][1..][1..], STCO) == Some(OffsetAtom().payload);
    assert First(atoms[1..][1..][1..], STCO) == First(atoms[1..][1..], STCO) == First(atoms[1..], STCO)
      == First(atoms, STCO) == Some(OffsetAtom().payload);
    ChildOfList(atoms, STCO, OffsetAtom().payload);
  }

  // ----- where the frames are -----

  lemma {:induction false} JoinSlice(frames: seq<seq<Byte>>, size: nat, i: nat)
    requires FramesFit(frames, size) && i < |frames|
    ensures i * size + size <= |Join(frames)|
    ensures Join(frames)[i * size..i * size + size] == frames[i]
  {
    JoinLength(frames, size);
    if i > 0 {
      JoinSlice(frames[1..], size, i - 1);
      assert i * size == size + (i - 1) * size;
      assert Join(frames)[size..] == Join(frames[1..]);
      assert Join(frames)[i * size..i * size + size] == Join(frames)[size..][(i - 1) * size..(i - 1) * size + size];
    } else {
      assert Join(frames)[..size] == frames[0];
    }
  }

  // A 20-byte file type, an eight-byte media header, the media, and the movie header.
  ghost predicate IsLayout(raw: seq<Byte>, media: seq<Byte>, header: seq<Byte>) {
    && |raw| == 36 + |media| + |header|
    && raw[..4] == U32(20) && raw[4..8] == FTYP && raw[20..24] == U32(|media| + 8) && raw[24..28] == MDAT
    && raw[28..28 + |media|] == media
    && raw[28 + |media|..32 + |media|] == U32(|header| + 8) && raw[32 + |media|..36 + |media|] == MOOV
  }

  lemma {:induction false} ThreeAtoms(a: Atom, b: Atom, c: Atom)
    ensures EncodeAll([a, b, c]) == Encode(a) + (Encode(b) + Encode(c))
  {
    var atoms := [a, b, c];
    assert atoms[1..] == [b, c] && [b, c][1..] == [c] && [c][1..] == [];
    assert EncodeAll([c]) == Encode(c) + [] == Encode(c);
  }

  lemma {:induction false} LayoutOfAtoms(media: seq<Byte>, header: seq<Byte>)
    ensures IsLayout(Encode(FileType()) + (Encode(Atom(MDAT, media)) + Encode(Atom(MOOV, header))), media, header)
  {}

  lemma {:induction false} Layout(frames: seq<seq<Byte>>, d: Description)
    ensures IsLayout(MovieBytes(frames, d), Join(frames), EncodeAll(Header(d)))
  {
    ThreeAtoms(FileType(), Atom(MDAT, Join(frames)), Atom(MOOV, EncodeAll(Header(d))));
    LayoutOfAtoms(Join(frames), EncodeAll(Header(d)));
  }

  lemma {:induction false} SliceOfSlice(raw: seq<Byte>, media: seq<Byte>, start: nat, at: nat, size: nat)
    requires start + |media| <= |raw| && raw[start..start + |media|] == media && at + size <= |media|
    ensures raw[start + at..start + at + size] == media[at..at + size]
  {
    var outer, inner := raw[start + at..start + at + size], media[at..at + size];
    forall k | 0 <= k < size ensures outer[k] == inner[k] {
      assert media[at + k] == raw[start + (at + k)];
    }
  }

  lemma {:induction false} FrameInLayout(raw: seq<Byte>, frames: seq<seq<Byte>>, header: seq<Byte>, size: nat, i: nat)
    requires IsLayout(raw, Join(frames), header) && FramesFit(frames, size) && i < |frames|
    ensures 28 + i * size + size <= |raw| && raw[28 + i * size..28 + i * size + size] == frames[i]
  {
    JoinSlice(frames, size, i);
    SliceOfSlice(raw, Join(frames), 28, i * size, size);
  }

  // ----- the crop benchmark's reader -----

  // `_movie_frames`: the position of the first frame of a three-frame movie, if the header
  // checks pass.
  function MovieFrames(raw: seq<Byte>, width: nat, height: nat): Option<nat> {
    var media := FrameSize(width, height) * 3;
    var moov := 28 + media;
    if |raw| < 36 || raw[4..8] != FTYP || Unsigned(raw[..4]) != 20 then None
    else if raw[24..28] != MDAT || Unsigned(raw[20..24]) != 8 + media then None
    else if |raw| < moov + 8 || raw[moov + 4..moov + 8] != MOOV then None
    else if Unsigned(raw[moov..moov + 4]) != |raw| - moov then None
    else Some(28)
  }

  // What it accepts are three atoms: a file type of 20 bytes, the media of three frames, and a header.
  lemma {:induction false} AcceptedAreThreeAtoms(raw: seq<Byte>, width: nat, height: nat)
    returns (brand: seq<Byte>, media: seq<Byte>, header: seq<Byte>)
    requires MovieFrames(raw, width, height).Some?
    ensures |brand| == 12 && |media| == 3 * (width * height * 3)
    ensures raw == Encode(Atom([102, 116, 121, 112], brand)) + Encode(Atom([109, 100, 97, 116], media))
                   + Encode(Atom([109, 111, 111, 118], header))
    ensures MovieFrames(raw, width, height) == Some(28)
  {
    var moov := 28 + FrameSize(width, height) * 3;
    brand, media, header := raw[8..20], raw[28..moov], raw[moov + 8..];
    SplitThree(raw, moov);
  }

  lemma {:induction false} SplitThree(raw: seq<Byte>, moov: nat)
    requires 28 <= moov && moov + 8 <= |raw| && Unsigned(raw[..4]) == 20
    requires Unsigned(raw[20..24]) == moov - 20 && Unsigned(raw[moov..moov + 4]) == |raw| - moov
    ensures raw == Encode(Atom(raw[4..8], raw[8..20])) + Encode(Atom(raw[24..28], raw[28..moov]))
                   + Encode(Atom(raw[moov + 4..moov + 8], raw[moov + 8..]))
  {
    assert raw[0..4] == raw[..4] && raw[moov + 8..|raw|] == raw[moov + 8..];
    SplitAtom(raw, 0, 20);
    SplitAtom(raw, 20, moov);
    SplitAtom(raw, moov, |raw|);
    assert raw == raw[0..20] + raw[20..moov] + raw[moov..|raw|];
  }

  lemma {:induction false} SplitAtom(raw: seq<Byte>, from: nat, to: nat)
    requires from + 8 <= to <= |raw| && Unsigned(raw[from..from + 4]) == to - from
    ensures raw[from..to] == Encode(Atom(raw[from + 4..from + 8], raw[from + 8..to]))
  {
    UnsignedRoundTrip(raw[from..from + 4]);
    assert raw[from..to] == raw[from..from + 4] + raw[from + 4..from + 8] + raw[from + 8..to];
  }

  lemma {:induction false} ShortNumbers()
    ensures Unsigned(U32(20)) == 20 && Unsigned(U32(1)) == 1 && Unsigned(U32(28)) == 28
  {
    Powers();
    BigEndianRoundTrip(20, 4); BigEndianRoundTrip(1, 4); BigEndianRoundTrip(28, 4);
  }

  lemma {:induction false} LayoutIsAccepted(
    raw: seq<Byte>, media: seq<Byte>, header: seq<Byte>, width: nat, height: nat)
    requires IsLayout(raw, media, header) && |raw| <= 0xFFFF_FFFF && |media| == FrameSize(width, height) * 3
    ensures MovieFrames(raw, width, height) == Some(28)
  {
    ShortNumbers();
    Powers();
    BigEndianRoundTrip(|media| + 8, 4);
    BigEndianRoundTrip(|header| + 8, 4);
  }

  lemma {:induction false} FramesOfLayout(raw: seq<Byte>, frames: seq<seq<Byte>>, header: seq<Byte>, size: nat)
    requires IsLayout(raw, Join(frames), header) && FramesFit(frames, size)
    ensures FramesAt(raw, frames, 28, size)
  {
    forall i | 0 <= i < |frames| ensures Slice(raw, 28 + i * size, size) == frames[i] {
      FrameInLayout(raw, frames, header, size, i);
    }
  }

  // A slice that, as in Python, stops at the end of the data.
  function Slice(raw: seq<Byte>, start: nat, length: nat): seq<Byte> {
    if start >= |raw| then [] else if start + length <= |raw| then raw[start..start + length] else raw[start..]
  }

  // Equal stretches from `start` on hold the frames in order.
  ghost predicate FramesAt(raw: seq<Byte>, frames: seq<seq<Byte>>, start: nat, size: nat) {
    forall i :: 0 <= i < |frames| ==> Slice(raw, start + i * size, size) == frames[i]
  }

  // Whatever rawvideo_movie writes, the crop benchmark reads back frame by frame.
  lemma {:induction false} RawvideoRoundTrip(frames: seq<seq<Byte>>, width: nat, height: nat, raw: seq<Byte>)
    requires 1 <= width <= 4096 && 1 <= height <= 4096 && |frames| == 3 && FramesFit(frames, FrameSize(width, height))
    requires raw == MovieBytes(frames, CropDescription(width, height))
    ensures MovieFrames(raw, width, height) == Some(28)
    ensures FramesAt(raw, frames, 28, FrameSize(width, height))
  {
    var d, size := CropDescription(width, height), FrameSize(width, height);
    var header := EncodeAll(Header(d));
    Layout(frames, d);
    JoinLength(frames, size);
    FrameSizeBound(width, height);
    FramesOfLayout(raw, frames, header, size);
    LayoutIsAccepted(raw, Join(frames), header, width, height);
  }

  // ----- the sampling benchmark's reader -----

  const CLIP_FRAMES := 86

  // What the annotation lock records of a clip: its size, digest and frame digests.
  datatype ClipLock = ClipLock(byteCount: nat, sha256: string, frames: seq<string>)

  predicate ClipHeader(raw: seq<Byte>) {
    && |raw| >= 28 && raw[4..8] == FTYP && raw[24..28] == MDAT
    && Unsigned(raw[..4]) == 20
    && Unsigned(raw[20..24]) == 8 + FormatSize(SAMPLING) * CLIP_FRAMES
  }

  // The bytes it accepts: a file type of 20 bytes, then a media box just large enough for 86 frames.
  lemma {:induction false} ClipHeaderMeaning(raw: seq<Byte>)
    requires |raw| >= 28
    ensures ClipHeader(raw) <==>
            && raw[..4] == [0, 0, 0, 20] && raw[4..8] == [102, 116, 121, 112]
            && raw[20..24] == BigEndian(8 + 86 * 384 * 216 * 3, 4) && raw[24..28] == [109, 100, 97, 116]
  {
    TwentyInBytes();
    FourBytes(raw[..4], 20);
    FourBytes(raw[20..24], 8 + 86 * 384 * 216 * 3);
  }

  lemma {:induction false} FourBytes(s: seq<Byte>, n: nat)
    requires |s| == 4 && n < 0x1_0000_0000
    ensures Unsigned(s) == n <==> s == BigEndian(n, 4)
  {
    Powers();
    BigEndianRoundTrip(n, 4);
    UnsignedRoundTrip(s);
  }

  lemma {:induction false} TwentyInBytes()
    ensures BigEndian(20, 4) == [0, 0, 0, 20]
  {}

  // The i-th frame of a clip, as far as the data goes.
  function ClipFrame(raw: seq<Byte>, i: nat): seq<Byte> {
    Slice(raw, 28 + i * FormatSize(SAMPLING), FormatSize(SAMPLING))
  }

  ghost predicate ClipMatches(raw: seq<Byte>, lock: ClipLock, hash: seq<Byte> -> string) {
    var size := FormatSize(SAMPLING);
    && |raw| == lock.byteCount && hash(raw) == lock.sha256 && ClipHeader(raw)
    && forall i :: 0 <= i < |lock.frames| ==> |ClipFrame(raw, i)| == size && hash(ClipFrame(raw, i)) == lock.frames[i]
  }

  method ReadClip(raw: seq<Byte>, lock: ClipLock, hash: seq<Byte> -> string) returns (r: Result<seq<seq<Byte>>, string>)
    ensures r.Ok? <==> ClipMatches(raw, lock, hash)
    ensures r.Ok? ==> |r.value| == |lock.frames|
    ensures r.Ok? ==> forall i :: 0 <= i < |lock.frames| ==> r.value[i] == ClipFrame(raw, i)
  {
    if |raw| != lock.byteCount || hash(raw) != lock.sha256 { return Err("clip_digest_mismatch"); }
    if !ClipHeader(raw) { return Err("invalid_clip"); }
    var size := FormatSize(SAMPLING);
    var frames: seq<seq<Byte>> := [];
    for index := 0 to |lock.frames|
      invariant |frames| == index
      invariant forall i :: 0 <= i < index ==>
        frames[i] == ClipFrame(raw, i) && |frames[i]| == size && hash(frames[i]) == lock.frames[i]
    {
      var pixels := ClipFrame(raw, index);
      if |pixels| != size || hash(pixels) != lock.frames[index] { return Err("frame_digest_mismatch"); }
      frames := frames + [pixels];
    }
    return Ok(frames);
  }

  function Digests(frames: seq<seq<Byte>>, hash: seq<Byte> -> string): (r: seq<string>)
    ensures |r| == |frames| && forall i :: 0 <= i < |frames| ==> r[i] == hash(frames[i])
  {
    if frames == [] then [] else [hash(frames[0])] + Digests(frames[1..], hash)
  }

  lemma {:induction false} ClipHeaderOfLayout(raw: seq<Byte>, media: seq<Byte>, header: seq<Byte>)
    requires IsLayout(raw, media, header) && |raw| <= 0xFFFF_FFFF
    ensures ClipHeader(raw) <==> |media| == FormatSize(SAMPLING) * CLIP_FRAMES
  {
    ShortNumbers();
    Powers();
    BigEndianRoundTrip(|media| + 8, 4);
  }

  lemma {:induction false} ClipLayout(
    raw: seq<Byte>, frames: seq<seq<Byte>>, header: seq<Byte>, hash: seq<Byte> -> string)
    requires FramesFit(frames, FormatSize(SAMPLING)) && IsLayout(raw, Join(frames), header) && |raw| <= 0xFFFF_FFFF
    ensures ClipMatches(raw, ClipLock(|raw|, hash(raw), Digests(frames, hash)), hash) <==> |frames| == CLIP_FRAMES
  {
    JoinLength(frames, FormatSize(SAMPLING));
    ClipHeaderOfLayout(raw, Join(frames), header);
    FramesOfLayout(raw, frames, header, FormatSize(SAMPLING));
  }

  // A clip the sampling writer accepts is readable against its own annotations exactly when
  // it has 86 frames, and the frames are where the reader looks.
  lemma {:induction false} ClipRoundTrip(
    frames: seq<seq<Byte>>, d: Description, hash: seq<Byte> -> string, raw: seq<Byte>)
    requires FramesFit(frames, FormatSize(SAMPLING))
    requires raw == MovieBytes(frames, d) && |raw| <= SAMPLING.limit
    ensures ClipMatches(raw, ClipLock(|raw|, hash(raw), Digests(frames, hash)), hash) <==> |frames| == CLIP_FRAMES
    ensures FramesAt(raw, frames, 28, FormatSize(SAMPLING))
  {
    Layout(frames, d);
    ClipLayout(raw, frames, EncodeAll(Header(d)), hash);
    FramesOfLayout(raw, frames, EncodeAll(Header(d)), FormatSize(SAMPLING));
  }

  // ----- what the tables say -----

  function Number(payload: seq<Byte>, at: nat): nat
    requires at + 4 <= |payload|
  {
    Unsigned(payload[at..at + 4])
  }

  lemma {:induction false} TableContents(d: Description)
    requires d.frames < Power(256, 4) && RunsFit(d.entries) && FrameSize(d.width, d.height) < Power(256, 4)
    ensures ReadTimeTable(TimeAtom(d).payload) == d.entries
    ensures Number(SizeAtom(d).payload, 4) == FrameSize(d.width, d.height) && Number(SizeAtom(d).payload, 8) == d.frames
    ensures Number(OffsetAtom().payload, 4) == 1 && Number(OffsetAtom().payload, 8) == 28
  {
    var times, sizes, offsets := TimeAtom(d).payload, SizeAtom(d).payload, OffsetAtom().payload;
    RunsReadBack(d.entries);
    assert times[8..] == RunBytes(d.entries);
    BigEndianRoundTrip(FrameSize(d.width, d.height), 4); BigEndianRoundTrip(d.frames, 4);
    assert sizes[4..8] == U32(FrameSize(d.width, d.height)) && sizes[8..12] == U32(d.frames);
    ShortNumbers();
    assert offsets[4..8] == U32(1) && offsets[8..12] == U32(28);
  }

  // In every movie below four gigabytes a generic reader finds the three sample tables.
  lemma {:induction false} TablesAreLocated(frames: seq<seq<Byte>>, d: Description)
    requires |MovieBytes(frames, d)| <= 0xFFFF_FFFF
    ensures Descend(MovieBytes(frames, d), StblPath(STTS)) == Some(TimeAtom(d).payload)
    ensures Descend(MovieBytes(frames, d), StblPath(STSZ)) == Some(SizeAtom(d).payload)
    ensures Descend(MovieBytes(frames, d), StblPath(STCO)) == Some(OffsetAtom().payload)
  {
    StblIsFound(frames, d, STTS); StblIsFound(frames, d, STSZ); StblIsFound(frames, d, STCO);
    TablesAreFound(d);
  }

  // They describe the frames: the chunk offset points at the first one, sample size times
  // count fills the media box, and the time table reads back as written.
  lemma {:induction false} TablesDescribeFrames(frames: seq<seq<Byte>>, d: Description, raw: seq<Byte>)
    requires raw == MovieBytes(frames, d) && |raw| <= 0xFFFF_FFFF
    requires FramesFit(frames, FrameSize(d.width, d.height)) && d.frames == |frames| < Power(256, 4)
    requires RunsFit(d.entries)
    requires FrameSize(d.width, d.height) < Power(256, 4)
    ensures ReadTimeTable(TimeAtom(d).payload) == d.entries
    ensures Child(raw, MDAT) == Some(Join(frames))
    ensures Number(SizeAtom(d).payload, 4) * Number(SizeAtom(d).payload, 8) == |Join(frames)|
    ensures FramesAt(raw, frames, Number(OffsetAtom().payload, 8), Number(SizeAtom(d).payload, 4))
  {
    HeaderIsFound(frames, d);
    JoinLength(frames, FrameSize(d.width, d.height));
    TableContents(d);
    Layout(frames, d);
    FramesOfLayout(raw, frames, EncodeAll(Header(d)), FrameSize(d.width, d.height));
  }

  // All of it read from the file's own bytes: a generic reader that descends to the sample
  // tables learns the run lengths and finds every frame.
  lemma {:induction false} MovieIsReadable(frames: seq<seq<Byte>>, d: Description, raw: seq<Byte>)
    requires raw == MovieBytes(frames, d) && |raw| <= 0xFFFF_FFFF
    requires FramesFit(frames, FrameSize(d.width, d.height)) && d.frames == |frames| < Power(256, 4)
    requires RunsFit(d.entries)
    requires FrameSize(d.width, d.height) < Power(256, 4)
    ensures var times, sizes := Descend(raw, StblPath(STTS)), Descend(raw, StblPath(STSZ));
            var offsets := Descend(raw, StblPath(STCO));
            && times.Some? && |times.value| >= 8 && ReadTimeTable(times.value) == d.entries
            && sizes.Some? && |sizes.value| == 12 && Number(sizes.value, 4) * Number(sizes.value, 8) == |Join(frames)|
            && offsets.Some? && |offsets.value| == 12
            && FramesAt(raw, frames, Number(offsets.value, 8), Number(sizes.value, 4))
  {
    TablesAreLocated(frames, d);
    TablesDescribeFrames(frames, d, raw);
  }

  lemma {:induction false} NumberIs(p: seq<Byte>, at: nat, n: nat)
    requires n < 0x1_0000_0000 && at + 4 <= |p| && p[at..at + 4] == U32(n)
    ensures Number(p, at) == n
  {
    Powers();
    BigEndianRoundTrip(n, 4);
  }

  lemma {:induction false} BoxBody(kind: seq<Byte>, version: Byte, flags: nat, body: seq<Byte>)
    ensures FullBox(kind, version, flags, body).payload[4..] == body
  {
    var start := [version] + BigEndian(flags, 3);
    assert (start + body)[|start|..] == body;
  }

  // Where five parts lie.
  lemma {:induction false} Parts(p: seq<Byte>, at: nat, a: seq<Byte>, b: seq<Byte>, c: seq<Byte>, d: seq<Byte>,
                                 e: seq<Byte>)
    requires at <= |p| && p[at..] == a + b + c + d + e
    ensures var i, j := at + |a|, at + |a| + |b| + |c|;
            && |p| == j + |d| + |e| && p[at..i] == a && p[i..i + |b|] == b && p[i + |b|..j] == c
            && p[j..j + |d|] == d && p[j + |d|..] == e
  {
    var q, i, j := p[at..], |a|, |a| + |b| + |c|;
    assert q[..i] == a && q[i..i + |b|] == b && q[i + |b|..j] == c && q[j..j + |d|] == d && q[j + |d|..] == e;
  }

  // The sample entry holds width and height.
  lemma {:induction false} EntrySides(d: Description)
    requires d.width < 0x1_0000 && d.height < 0x1_0000
    ensures var p := SampleEntry(d).payload;
            && Unsigned(p[24..26]) == d.width && Unsigned(p[26..28]) == d.height
  {
    Powers();
    BigEndianRoundTrip(d.width, 2);
    BigEndianRoundTrip(d.height, 2);
    var p, start := SampleEntry(d).payload, EntryStart();
    assert [] + start == start && p[0..] == p;
    Parts(p, 0, [], start, U16(d.width), U16(d.height), EntryRest());
  }

  // One chunk holds all the frames.
  lemma {:induction false} OneChunk(d: Description)
    requires d.frames < 0x1_0000_0000
    ensures var p := ChunkAtom(d).payload;
            |p| == 20 && Number(p, 4) == 1 && Number(p, 8) == 1 && Number(p, 12) == d.frames && Number(p, 16) == 1
  {
    var p := ChunkAtom(d).payload;
    BoxBody(STSC, 0, 0, ChunkFields(d));
    assert ChunkFields(d) + [] == ChunkFields(d);
    Parts(p, 4, U32(1), U32(1), U32(d.frames), U32(1), []);
    NumberIs(p, 4, 1);
    NumberIs(p, 8, 1);
    NumberIs(p, 12, d.frames);
    NumberIs(p, 16, 1);
  }

  // The movie and media headers count milliseconds up to the duration.
  lemma {:induction false} HeaderClocks(d: Description)
    requires d.duration < 0x1_0000_0000
    ensures ShowsClock(d, MediaHeader(d).payload) && ShowsClock(d, MovieHeader(d).payload)
  {
    BoxBody(MDHD, 0, 0, Clock(d) + Language());
    ClockReads(d, MediaHeader(d).payload, Language());
    BoxBody(MVHD, 0, 0, Clock(d) + MovieRest());
    ClockReads(d, MovieHeader(d).payload, MovieRest());
  }

  ghost predicate ShowsClock(d: Description, p: seq<Byte>) {
    |p| >= 20 && Number(p, 12) == 1000 && Number(p, 16) == d.duration
  }

  lemma {:induction false} ClockReads(d: Description, p: seq<Byte>, rest: seq<Byte>)
    requires d.duration < 0x1_0000_0000 && |p| >= 4 && p[4..] == Clock(d) + rest
    ensures ShowsClock(d, p)
  {
    Parts(p, 4, U32(0), U32(0), U32(1000), U32(d.duration), rest);
    NumberIs(p, 12, 1000);
    NumberIs(p, 16, d.duration);
  }

  // The track header gives the duration and, as 16.16 fixed point, width and height.
  lemma {:induction false} TrackSides(d: Description)
    requires d.duration < 0x1_0000_0000 && d.width < 0x1_0000 && d.height < 0x1_0000
    ensures var p := TrackHeader(d).payload;
            |p| == 84 && Number(p, 20) == d.duration
            && Number(p, 76) == d.width * 0x1_0000 && Number(p, 80) == d.height * 0x1_0000
  {
    BoxBody(TKHD, 0, 7, TrackFields(d));
    TrackReads(TrackHeader(d).payload, TrackStart(), d.duration, Placement(), d.width * 0x1_0000, d.height * 0x1_0000);
  }

  lemma {:induction false} TrackReads(p: seq<Byte>, start: seq<Byte>, m: nat, place: seq<Byte>, n: nat, k: nat)
    requires |p| == 84 && |start| == 16 && |place| == 52
    requires m < 0x1_0000_0000 && n < 0x1_0000_0000 && k < 0x1_0000_0000
    requires p[4..] == start + U32(m) + place + U32(n) + U32(k)
    ensures Number(p, 20) == m && Number(p, 76) == n && Number(p, 80) == k
  {
    Parts(p, 4, start, U32(m), place, U32(n), U32(k));
    NumberIs(p, 20, m);
    NumberIs(p, 76, n);
    NumberIs(p, 80, k);
  }

  // Expanding the time table of a raw movie gives three frames of one second.
  lemma {:induction false} CropTimesReadBack(frames: seq<seq<Byte>>, width: nat, height: nat, raw: seq<Byte>)
    requires 1 <= width <= 4096 && 1 <= height <= 4096 && |frames| == 3
    requires FramesFit(frames, FrameSize(width, height)) && |raw| <= 0xFFFF_FFFF
    requires raw == MovieBytes(frames, CropDescription(width, height))
    ensures var d := CropDescription(width, height); d.width == width && d.height == height && d.duration == 3000
    ensures var times := Descend(raw, StblPath(STTS));
            times.Some? && |times.value| >= 8 && Expand(ReadTimeTable(times.value)) == [1000, 1000, 1000]
  {
    Powers();
    FrameSizeBound(width, height);
    var d := CropDescription(width, height);
    MovieIsReadable(frames, d, raw);
    ThreeSeconds(d.entries);
  }

  lemma {:induction false} ThreeSeconds(entries: seq<Run>)
    requires entries == [Run(3, 1000)]
    ensures Expand(entries) == [1000, 1000, 1000]
  {}

  // Expanding the time table of any clip the writers accept gives the annotated durations.
  lemma {:induction false} ClipTimesReadBack(
    f: Format, frames: seq<seq<Byte>>, durations: seq<nat>, entries: seq<Run>, raw: seq<Byte>)
    requires (f == SAMPLING || f == TRACKING) && FramesFit(frames, FormatSize(f)) && |frames| < Power(256, 4)
    requires Expand(entries) == durations && RunsFit(entries)
    requires raw == MovieBytes(frames, ClipDescription(f, |frames|, durations, entries)) && |raw| <= f.limit
    ensures var times := Descend(raw, StblPath(STTS));
            times.Some? && |times.value| >= 8 && Expand(ReadTimeTable(times.value)) == durations
    ensures var d := ClipDescription(f, |frames|, durations, entries);
            && d.duration == Total(durations)
            && (d.width, d.height) == if f == SAMPLING then (384, 216) else (640, 360)
  {
    Powers();
    MovieIsReadable(frames, ClipDescription(f, |frames|, durations, entries), raw);
  }

  // ----- the tracking benchmark's reader -----

  // The media as far as its declared size and the data go.
  function TrackingPayload(raw: seq<Byte>): seq<Byte> {
    if |raw| < 4 then []
    else
      var first := Unsigned(raw[..4]);
      if first + 4 > |raw| then []
      else
        var size := Unsigned(raw[first..first + 4]);
        if size < 8 then [] else Slice(raw, first + 8, size - 8)
  }

  predicate TrackingHeader(raw: seq<Byte>) {
    |raw| >= 28 && raw[4..8] == FTYP &&
    var first := Unsigned(raw[..4]);
    first >= 8 && first + 8 <= |raw| && raw[first + 4..first + 8] == MDAT
  }

  function TrackingFrame(raw: seq<Byte>, i: nat): seq<Byte> {
    Slice(TrackingPayload(raw), i * FormatSize(TRACKING), FormatSize(TRACKING))
  }

  ghost predicate TrackingMatches(raw: seq<Byte>, lock: ClipLock, hash: seq<Byte> -> string) {
    && |raw| == lock.byteCount && hash(raw) == lock.sha256 && TrackingHeader(raw)
    && |TrackingPayload(raw)| == FormatSize(TRACKING) * |lock.frames|
    && forall i :: 0 <= i < |lock.frames| ==> hash(TrackingFrame(raw, i)) == lock.frames[i]
  }

  method ReadTrackingClip(
    raw: seq<Byte>, lock: ClipLock, hash: seq<Byte> -> string)
    returns (r: Result<seq<seq<Byte>>, string>)
    ensures r.Ok? <==> TrackingMatches(raw, lock, hash)
    ensures r.Ok? ==> |r.value| == |lock.frames|
    ensures r.Ok? ==> forall i :: 0 <= i < |lock.frames| ==> r.value[i] == TrackingFrame(raw, i)
  {
    if |raw| != lock.byteCount || hash(raw) != lock.sha256 { return Err("clip_digest_mismatch"); }
    if !TrackingHeader(raw) || |TrackingPayload(raw)| != FormatSize(TRACKING) * |lock.frames| {
      return Err("invalid_clip");
    }
    var frames: seq<seq<Byte>> := [];
    for index := 0 to |lock.frames|
      invariant |frames| == index
      invariant forall i :: 0 <= i < index ==> frames[i] == TrackingFrame(raw, i) && hash(frames[i]) == lock.frames[i]
    {
      var pixels := TrackingFrame(raw, index);
      if hash(pixels) != lock.frames[index] { return Err("frame_digest_mismatch"); }
      frames := frames + [pixels];
    }
    return Ok(frames);
  }

  lemma {:induction false} PayloadOfLayout(raw: seq<Byte>, media: seq<Byte>, header: seq<Byte>)
    requires IsLayout(raw, media, header) && |raw| <= 0xFFFF_FFFF
    ensures TrackingHeader(raw) && TrackingPayload(raw) == media
  {
    ShortNumbers();
    Powers();
    BigEndianRoundTrip(|media| + 8, 4);
  }

  // A tracking clip of any number of frames reads back against its own annotations.
  lemma {:induction false} TrackingRoundTrip(
    frames: seq<seq<Byte>>, d: Description, hash: seq<Byte> -> string, raw: seq<Byte>)
    requires FramesFit(frames, FormatSize(TRACKING)) && raw == MovieBytes(frames, d) && |raw| <= TRACKING.limit
    ensures TrackingMatches(raw, ClipLock(|raw|, hash(raw), Digests(frames, hash)), hash)
    ensures forall i :: 0 <= i < |frames| ==> TrackingFrame(raw, i) == frames[i]
  {
    var size := FormatSize(TRACKING);
    Layout(frames, d);
    PayloadOfLayout(raw, Join(frames), EncodeAll(Header(d)));
    JoinLength(frames, size);
    forall i | 0 <= i < |frames| ensures TrackingFrame(raw, i) == frames[i] {
      JoinSlice(frames, size, i);
    }
  }
}
