/** The pcap capture file: what its four variants look like, the writer and the batched reader. */
module Pcap {
  import opened Common

  type u32 = n: int | 0 <= n < 0x1_0000_0000

  /** `sec` and `nsec` are 64-bit in the program, `actual` and the payload length word-sized. */
  datatype Frame = Frame(link: u32, payload: seq<byte>, actual: nat, sec: int, nsec: int)

  datatype Format = Format(le: bool, nsec: bool)

  datatype Error = InvalidData | UnexpectedEof
  datatype Result<T> = Ok(value: T) | Err(error: Error)

  // ---- 32-bit fields

  /** The low 32 bits of `n`, least significant byte first. */
  function Little(n: int): (bytes: seq<byte>)
    ensures |bytes| == 4
  {
    [n % 256, n / 256 % 256, n / 65536 % 256, n / 16777216 % 256]
  }

  function Field(n: int, le: bool): (bytes: seq<byte>)
    ensures |bytes| == 4
  {
    var b := Little(n);
    if le then b else [b[3], b[2], b[1], b[0]]
  }

  function Value(b: seq<byte>, le: bool): u32
    requires |b| == 4
  {
    if le then b[0] as int + 256 * b[1] as int + 65536 * b[2] as int + 16777216 * b[3] as int
    else b[3] as int + 256 * b[2] as int + 65536 * b[1] as int + 16777216 * b[0] as int
  }

  /** The four bytes of a number, in file order. */
  lemma FieldBytes(n: int)
    ensures Field(n, true) == [n % 256, n / 256 % 256, n / 65536 % 256, n / 16777216 % 256]
    ensures Field(n, false) == [n / 16777216 % 256, n / 65536 % 256, n / 256 % 256, n % 256]
  {
  }

  /** A field holds its number modulo 2^32, in either byte order. */
  lemma FieldValue(n: int, le: bool)
    ensures Value(Field(n, le), le) == n % 0x1_0000_0000
  {
    var a, b, c := n / 256, n / 256 / 256, n / 256 / 256 / 256;
    assert n / 65536 == b && n / 16777216 == c && n / 0x1_0000_0000 == c / 256;
  }

  // ---- the file format

  const MAGIC_LENGTH := 4
  const HEADER_END := 24
  const RECORD_HEADER := 16

  /** The magic number, read most significant byte first. */
  function Magic(format: Format): u32 {
    match format
    case Format(true, false) => 0xd4c3b2a1
    case Format(false, false) => 0xa1b2c3d4
    case Format(true, true) => 0x4d3cb2a1
    case Format(false, true) => 0xa1b23c4d
  }

  /** Version 2.4, no time zone correction, no accuracy, then the snapshot length and the link type. */
  function Header(format: Format, snaplen: u32, link: u32): (bytes: seq<byte>)
    ensures |bytes| == HEADER_END - MAGIC_LENGTH
  {
    (if format.le then [2, 0, 4, 0] else [0, 2, 0, 4])
    + Field(0, format.le) + Field(0, format.le) + Field(snaplen, format.le) + Field(link, format.le)
  }

  function Fraction(nsec: int, format: Format): int {
    if format.nsec then nsec else nsec / 1000
  }

  function Encode(f: Frame, format: Format): seq<byte> {
    Field(f.sec, format.le) + Field(Fraction(f.nsec, format), format.le) + Field(|f.payload|, format.le)
    + Field(f.actual, format.le) + f.payload
  }

  function EncodeAll(frames: seq<Frame>, format: Format): seq<byte> {
    if frames == [] then [] else Encode(frames[0], format) + EncodeAll(frames[1..], format)
  }

  /** A capture file; without a single frame it ends after the magic number. */
  function File(frames: seq<Frame>, format: Format, snaplen: u32): seq<byte> {
    Field(Magic(format), false)
    + if frames == [] then [] else Header(format, snaplen, frames[0].link) + EncodeAll(frames, format)
  }

  // ---- the reader

  function FormatOf(magic: u32): Option<Format> {
    if magic == 0xd4c3b2a1 then Some(Format(true, false))
    else if magic == 0xa1b2c3d4 then Some(Format(false, false))
    else if magic == 0x4d3cb2a1 then Some(Format(true, true))
    else if magic == 0xa1b23c4d then Some(Format(false, true))
    else None
  }

  /** The record at the start of `bytes`, if it is there completely. */
  function Record(bytes: seq<byte>, format: Format, link: u32): (frame: Option<Frame>)
    ensures frame.Some? ==> RECORD_HEADER + |frame.value.payload| <= |bytes|
  {
    if |bytes| < RECORD_HEADER then None
    else
      var length := Value(bytes[8..12], format.le);
      if |bytes| - RECORD_HEADER < length then None
      else
        var fraction := Value(bytes[4..8], format.le);
        Some(Frame(link, bytes[16..16 + length], Value(bytes[12..16], format.le), Value(bytes[0..4], format.le),
          if format.nsec then fraction else fraction * 1000 % 0x1_0000_0000))
  }

  /** All complete leading records. */
  function Records(bytes: seq<byte>, format: Format, link: u32): seq<Frame>
    decreases |bytes|
  {
    match Record(bytes, format, link)
    case None => []
    case Some(f) => [f] + Records(bytes[RECORD_HEADER + |f.payload|..], format, link)
  }

  function Import(file: seq<byte>): Result<seq<Frame>> {
    if |file| < MAGIC_LENGTH then Err(UnexpectedEof)
    else match FormatOf(Value(file[..4], false))
      case None => Err(InvalidData)
      case Some(format) =>
        if |file| < HEADER_END then Err(UnexpectedEof)
        else Ok(Records(file[HEADER_END..], format, Value(file[20..24], format.le)))
  }

  /** The closure of the reader's loop: fill `dst` until it is full or a record is not complete. */
  method ReadBatch(bytes: seq<byte>, format: Format, link: u32, dst: array<Frame>)
    returns (cnt: nat, rest: seq<byte>, failed: bool)
    modifies dst
    ensures cnt <= dst.Length && (failed <==> cnt < dst.Length)
    ensures Records(bytes, format, link) == dst[..cnt] + if failed then [] else Records(rest, format, link)
    ensures |rest| + cnt <= |bytes|
  {
    hide Record;
    cnt, rest, failed := 0, bytes, false;
    assert dst[..0] == [];
    while cnt < dst.Length
      invariant cnt <= dst.Length && |rest| + cnt <= |bytes|
      invariant Records(bytes, format, link) == dst[..cnt] + Records(rest, format, link)
    {
      var record := Record(rest, format, link);
      if record.None? {
        return cnt, rest, true;
      }
      dst[cnt] := record.value;
      assert dst[..cnt + 1] == dst[..cnt] + [record.value];
      rest := rest[RECORD_HEADER + |record.value.payload|..];
      cnt := cnt + 1;
    }
  }

  /** `PcapImporter::start`: `dst` is filled and handed over batch by batch, full each time but the
      last. */
  method Start(file: seq<byte>, dst: array<Frame>) returns (result: Result<()>, batches: seq<seq<Frame>>)
    requires 1 <= dst.Length
    modifies dst
    ensures result == match Import(file) { case Ok(_) => Ok(()) case Err(e) => Err(e) }
    ensures Concat(batches) == if result.Ok? then Import(file).value else []
    ensures result.Err? ==> batches == []
    ensures result.Ok? ==> batches != [] && |batches[|batches| - 1]| < dst.Length
    ensures forall i :: 0 <= i < |batches| - 1 ==> |batches[i]| == dst.Length
  {
    hide Records, Value, FormatOf;
    batches := [];
    if |file| < MAGIC_LENGTH {
      return Err(UnexpectedEof), batches;
    }
    var format := FormatOf(Value(file[..4], false));
    if format.None? {
      return Err(InvalidData), batches;
    }
    if |file| < HEADER_END {
      return Err(UnexpectedEof), batches;
    }
    var link := Value(file[20..24], format.value.le);
    var rest, failed := file[HEADER_END..], false;
    ghost var all := Records(rest, format.value, link);
    assert Import(file) == Ok(all);
    while !failed
      invariant all == Concat(batches) + if failed then [] else Records(rest, format.value, link)
      invariant forall i :: 0 <= i < |batches| - (if failed then 1 else 0) ==> |batches[i]| == dst.Length
      invariant failed ==> batches != [] && |batches[|batches| - 1]| < dst.Length
      decreases !failed, |rest|
    {
      var cnt: nat;
      cnt, rest, failed := ReadBatch(rest, format.value, link, dst);
      ConcatOne(batches, dst[..cnt]);
      batches := batches + [dst[..cnt]];
    }
    return Ok(()), batches;
  }

  lemma ConcatOne<T>(batches: seq<seq<T>>, batch: seq<T>)
    ensures Concat(batches + [batch]) == Concat(batches) + batch
  {
    assert (batches + [batch])[..|batches|] == batches;
  }

  // ---- the writer

  /** The batches a writer takes before its source runs dry. */
  function Taken(batches: seq<seq<Frame>>): seq<Frame> {
    if batches == [] || batches[0] == [] then [] else batches[0] + Taken(batches[1..])
  }

  /** A file starts with the magic number of nanoseconds, version 2.4, zeros for time zone and accuracy, and then
      the snapshot length and the link type, all with the least significant byte first. */
  ghost predicate IsHeader(file: seq<byte>, snaplen: u32, link: u32) {
    && 24 <= |file|
    && file[..16] == [0x4d, 0x3c, 0xb2, 0xa1, 2, 0, 4, 0, 0, 0, 0, 0, 0, 0, 0, 0]
    && file[16..20] == [snaplen % 256, snaplen / 256 % 256, snaplen / 65536 % 256, snaplen / 16777216]
    && file[20..24] == [link % 256, link / 256 % 256, link / 65536 % 256, link / 16777216]
  }

  /** Without frames there is nothing but the magic number. */
  ghost predicate Begins(file: seq<byte>, frames: seq<Frame>, snaplen: u32) {
    if frames == [] then file == [0x4d, 0x3c, 0xb2, 0xa1] else IsHeader(file, snaplen, frames[0].link)
  }

  /** The first `n` batches have frames, and all of them together are these; the next one, if any, has none. */
  ghost predicate RunsDry(batches: seq<seq<Frame>>, n: nat, frames: seq<Frame>) {
    && n <= |batches| && (n < |batches| ==> batches[n] == [])
    && (forall i :: 0 <= i < n ==> batches[i] != []) && frames == Concat(batches[..n])
  }

  lemma {:induction false} TakenUntil(batches: seq<seq<Frame>>) returns (n: nat)
    ensures RunsDry(batches, n, Taken(batches))
  {
    n := 0;
    if batches != [] && batches[0] != [] {
      n := TakenUntil(batches[1..]);
      ConcatFirst(batches[0], batches[1..][..n]);
      n := n + 1;
      assert batches[..n] == [batches[0]] + batches[1..][..n - 1];
    }
  }

  lemma {:induction false} ConcatFirst<T>(batch: seq<T>, batches: seq<seq<T>>)
    ensures Concat([batch] + batches) == batch + Concat(batches)
  {
    if batches != [] {
      assert ([batch] + batches)[..|batches|] == [batch] + batches[..|batches| - 1];
      ConcatFirst(batch, batches[..|batches| - 1]);
    }
  }

  lemma WrittenHeader(frames: seq<Frame>, snaplen: u32)
    ensures Begins(File(frames, Format(true, true), snaplen), frames, snaplen)
  {
    hide EncodeAll, Field;
    MagicBytes();
    var format := Format(true, true);
    if frames != [] {
      var link, file := frames[0].link, File(frames, format, snaplen);
      FieldBytes(0);
      FieldBytes(snaplen);
      FieldBytes(link);
      var start: seq<byte> := [0x4d, 0x3c, 0xb2, 0xa1, 2, 0, 4, 0, 0, 0, 0, 0, 0, 0, 0, 0];
      assert file == start + Field(snaplen, true) + Field(link, true) + EncodeAll(frames, format);
    }
  }

  /** A record: seconds and nanoseconds, the payload's length and the captured one, all modulo 2^32, then the
      payload. */
  lemma RecordBytes(f: Frame)
    ensures var bytes := Encode(f, Format(true, true));
            && |bytes| == 16 + |f.payload| && bytes[16..] == f.payload
            && bytes[0..4] == [f.sec % 256, f.sec / 256 % 256, f.sec / 65536 % 256, f.sec / 16777216 % 256]
            && bytes[4..8] == [f.nsec % 256, f.nsec / 256 % 256, f.nsec / 65536 % 256, f.nsec / 16777216 % 256]
            && bytes[8..12] == [|f.payload| % 256, |f.payload| / 256 % 256, |f.payload| / 65536 % 256,
                                |f.payload| / 16777216 % 256]
            && bytes[12..16] == [f.actual % 256, f.actual / 256 % 256, f.actual / 65536 % 256,
                                 f.actual / 16777216 % 256]
  {
    hide Field;
    FieldBytes(f.sec);
    FieldBytes(f.nsec);
    FieldBytes(|f.payload|);
    FieldBytes(f.actual);
  }

  /** `PcapExporter::start`, with what the callback returns from call to call. */
  method Write(batches: seq<seq<Frame>>, snaplen: u32) returns (wtr: seq<byte>)
    ensures wtr == File(Taken(batches), Format(true, true), snaplen)
    ensures Begins(wtr, Taken(batches), snaplen)
    ensures exists n: nat :: RunsDry(batches, n, Taken(batches))
  {
    hide Taken, Begins, RunsDry, Field, Header, EncodeAll, File, Magic;
    var format := Format(true, true);
    wtr := [0x4d, 0x3c, 0xb2, 0xa1];
    EmptyFile(snaplen);
    var header, calls := false, 0;
    ghost var written: seq<Frame> := [];
    assert batches[0..] == batches;
    while calls < |batches| && batches[calls] != []
      invariant calls <= |batches| && Taken(batches) == written + Taken(batches[calls..])
      invariant header <==> written != []
      invariant wtr == File(written, format, snaplen)
    {
      var frames := batches[calls];
      FileGrows(written, frames, format, snaplen);
      if !header {
        header := true;
        wtr := wtr + Header(format, snaplen, frames[0].link);
      }
      wtr := WriteFrames(wtr, frames, format);
      TakenStep(batches, calls);
      written := written + frames;
      calls := calls + 1;
    }
    TakenStep(batches, calls);
    assert Taken(batches) == written;
    WrittenHeader(Taken(batches), snaplen);
    ghost var n := TakenUntil(batches);
  }

  lemma TakenStep(batches: seq<seq<Frame>>, calls: nat)
    requires calls <= |batches|
    ensures Taken(batches[calls..])
         == if calls < |batches| && batches[calls] != [] then batches[calls] + Taken(batches[calls + 1..]) else []
  {
    if calls < |batches| {
      assert batches[calls..][1..] == batches[calls + 1..];
    }
  }

  method WriteFrames(start: seq<byte>, frames: seq<Frame>, format: Format) returns (wtr: seq<byte>)
    ensures wtr == start + EncodeAll(frames, format)
  {
    hide Encode;
    wtr := start;
    var i := 0;
    while i < |frames|
      invariant i <= |frames| && wtr == start + EncodeAll(frames[..i], format)
    {
      EncodeOne(frames[..i], frames[i], format);
      assert frames[..i + 1] == frames[..i] + [frames[i]];
      wtr := wtr + Encode(frames[i], format);
      i := i + 1;
    }
    assert frames[..|frames|] == frames;
  }

  /** More frames go to the end of the file, behind the header if they are the first. */
  lemma FileGrows(written: seq<Frame>, frames: seq<Frame>, format: Format, snaplen: u32)
    requires frames != []
    ensures File(written + frames, format, snaplen)
         == File(written, format, snaplen)
            + (if written == [] then Header(format, snaplen, frames[0].link) else [])
            + EncodeAll(frames, format)
  {
    hide Field, Header, EncodeAll;
    if written == [] {
      assert written + frames == frames;
    } else {
      EncodeConcat(written, frames, format);
    }
  }

  lemma EmptyFile(snaplen: u32)
    ensures File([], Format(true, true), snaplen) == [0x4d, 0x3c, 0xb2, 0xa1]
  {
    MagicBytes();
  }

  lemma MagicBytes()
    ensures Field(Magic(Format(true, true)), false) == [0x4d, 0x3c, 0xb2, 0xa1]
  {
  }

  lemma {:induction false} EncodeConcat(a: seq<Frame>, b: seq<Frame>, format: Format)
    ensures EncodeAll(a + b, format) == EncodeAll(a, format) + EncodeAll(b, format)
  {
    if a == [] {
      assert a + b == b;
    } else {
      assert (a + b)[1..] == a[1..] + b;
      EncodeConcat(a[1..], b, format);
    }
  }

  lemma EncodeOne(frames: seq<Frame>, f: Frame, format: Format)
    ensures EncodeAll(frames + [f], format) == EncodeAll(frames, format) + Encode(f, format)
  {
    EncodeConcat(frames, [f], format);
    assert [f][1..] == [];
  }
}

/** Reading back what was written. */
module PcapRoundTrip {
  import opened Common
  import opened Pcap

  /** The values that a file of a given format can hold. */
  predicate Fits(f: Frame, format: Format) {
    && |f.payload| < 0x1_0000_0000 && f.actual < 0x1_0000_0000
    && 0 <= f.sec < 0x1_0000_0000 && 0 <= f.nsec < 0x1_0000_0000
    && (format.nsec || f.nsec % 1000 == 0)
  }

  ghost predicate AllFit(frames: seq<Frame>, format: Format, link: u32) {
    forall f :: f in frames ==> Fits(f, format) && f.link == link
  }

  /** A record followed by anything is read back. */
  lemma RecordRoundTrip(f: Frame, rest: seq<byte>, format: Format)
    requires Fits(f, format)
    ensures Record(Encode(f, format) + rest, format, f.link) == Some(f)
    ensures |Encode(f, format)| == RECORD_HEADER + |f.payload|
  {
    hide Field, Value;
    var bytes := Encode(f, format) + rest;
    assert bytes[0..4] == Field(f.sec, format.le);
    assert bytes[4..8] == Field(Fraction(f.nsec, format), format.le);
    assert bytes[8..12] == Field(|f.payload|, format.le);
    assert bytes[12..16] == Field(f.actual, format.le);
    FieldValue(f.sec, format.le);
    FieldValue(Fraction(f.nsec, format), format.le);
    FieldValue(|f.payload|, format.le);
    FieldValue(f.actual, format.le);
    assert bytes[16..16 + |f.payload|] == f.payload;
  }

  /** A record that is cut short is not read. */
  lemma CutRecord(f: Frame, format: Format, k: nat)
    requires Fits(f, format) && k < |Encode(f, format)|
    ensures Record(Encode(f, format)[..k], format, f.link) == None
  {
    hide Field, Value;
    var bytes := Encode(f, format)[..k];
    if RECORD_HEADER <= k {
      assert bytes[8..12] == Field(|f.payload|, format.le);
      FieldValue(|f.payload|, format.le);
    }
  }

  /** However much of the record area is there, exactly the complete leading frames are read. */
  lemma {:induction false} TruncatedRecords(frames: seq<Frame>, format: Format, link: u32, k: nat, n: nat)
    requires AllFit(frames, format, link) && n <= |frames|
    requires |EncodeAll(frames[..n], format)| <= k <= |EncodeAll(frames, format)|
    requires n < |frames| ==> k < |EncodeAll(frames[..n + 1], format)|
    ensures Records(EncodeAll(frames, format)[..k], format, link) == frames[..n]
    decreases |frames|
  {
    hide Encode, Record;
    var bytes := EncodeAll(frames, format)[..k];
    if frames == [] {
      assert Record(bytes, format, link).None? by {
        NoRecord(format, link);
      }
    } else {
      var f, tail := frames[0], EncodeAll(frames[1..], format);
      assert f in frames;
      var head := Encode(f, format);
      assert EncodeAll(frames, format) == head + tail;
      FirstSize(frames, format);
      if n == 0 {
        assert bytes == head[..k];
        CutRecord(f, format, k);
      } else {
        assert frames[..n][1..] == frames[1..][..n - 1];
        if n < |frames| {
          assert frames[..n + 1][1..] == frames[1..][..n];
        }
        var rest := tail[..k - |head|];
        assert bytes == head + rest;
        RecordRoundTrip(f, rest, format);
        assert bytes[|head|..] == rest;
        TruncatedRecords(frames[1..], format, link, k - |head|, n - 1);
      }
    }
  }

  lemma FirstSize(frames: seq<Frame>, format: Format)
    requires frames != []
    ensures EncodeAll(frames[..1], format) == Encode(frames[0], format)
  {
    assert frames[..1][1..] == [];
  }

  lemma NoRecord(format: Format, link: u32)
    ensures Record([], format, link).None?
  {
  }

  lemma HeaderRead(format: Format, snaplen: u32, link: u32, area: seq<byte>)
    ensures Import(Field(Magic(format), false) + Header(format, snaplen, link) + area)
        == Ok(Records(area, format, link))
  {
    hide Field, Value, Records;
    var file := Field(Magic(format), false) + Header(format, snaplen, link) + area;
    assert file[..4] == Field(Magic(format), false);
    FieldValue(Magic(format), false);
    assert file[20..24] == Field(link, format.le);
    FieldValue(link, format.le);
    assert file[24..] == area;
  }

  /** What a reader returns fits the format and has one link type. */
  lemma {:induction false} ReadFits(bytes: seq<byte>, format: Format, link: u32)
    requires format.nsec
    ensures AllFit(Records(bytes, format, link), format, link)
    decreases |bytes|
  {
    hide Value;
    match Record(bytes, format, link)
    case None =>
    case Some(f) => ReadFits(bytes[RECORD_HEADER + |f.payload|..], format, link);
  }

  /** The first four bytes tell byte order and resolution. */
  predicate KnownMagic(bytes: seq<byte>) {
    bytes in {[0xd4, 0xc3, 0xb2, 0xa1], [0xa1, 0xb2, 0xc3, 0xd4], [0x4d, 0x3c, 0xb2, 0xa1], [0xa1, 0xb2, 0x3c, 0x4d]}
  }

  lemma MagicsAre(bytes: seq<byte>)
    requires |bytes| == 4
    ensures FormatOf(Value(bytes, false)) == Some(Format(true, false)) <==> bytes == [0xd4, 0xc3, 0xb2, 0xa1]
    ensures FormatOf(Value(bytes, false)) == Some(Format(false, false)) <==> bytes == [0xa1, 0xb2, 0xc3, 0xd4]
    ensures FormatOf(Value(bytes, false)) == Some(Format(true, true)) <==> bytes == [0x4d, 0x3c, 0xb2, 0xa1]
    ensures FormatOf(Value(bytes, false)) == Some(Format(false, true)) <==> bytes == [0xa1, 0xb2, 0x3c, 0x4d]
  {
  }

  lemma FourFormats(f: Format)
    ensures f in {Format(true, false), Format(false, false), Format(true, true), Format(false, true)}
  {
    assert f == Format(f.le, f.nsec);
  }

  /** An import fails exactly on a wrong magic number, or if the file ends before the header does. */
  lemma ImportErrors(file: seq<byte>)
    ensures Import(file) == Err(InvalidData) <==> 4 <= |file| && !KnownMagic(file[..4])
    ensures Import(file) == Err(UnexpectedEof) <==> |file| < 4 || (|file| < 24 && KnownMagic(file[..4]))
  {
    hide Value, FormatOf, Records;
    if 4 <= |file| {
      MagicsAre(file[..4]);
      var format := FormatOf(Value(file[..4], false));
      if format.Some? {
        FourFormats(format.value);
      }
    }
  }

  /** Import undoes export exactly for a non-empty list of frames of one link type whose fields fit
      32 bits. */
  lemma ExportImport(frames: seq<Frame>, snaplen: u32)
    ensures Import(File(frames, Format(true, true), snaplen)) == Ok(frames)
       <==> frames != [] && AllFit(frames, Format(true, true), frames[0].link)
  {
    hide Header, Field, EncodeAll, Records;
    var format := Format(true, true);
    if frames != [] {
      var link := frames[0].link;
      var area := EncodeAll(frames, format);
      assert File(frames, format, snaplen) == Field(Magic(format), false) + Header(format, snaplen, link) + area;
      HeaderRead(format, snaplen, link, area);
      ReadFits(area, format, link);
      if AllFit(frames, format, link) {
        assert frames[..|frames|] == frames && area[..|area|] == area;
        TruncatedRecords(frames, format, link, |area|, |frames|);
      }
    } else {
      assert |File(frames, format, snaplen)| == 4;
    }
  }

  /** The other variants are read as well: in either byte order, and with microseconds when the
      times are whole microseconds. */
  lemma AnyFormatImports(frames: seq<Frame>, format: Format, snaplen: u32)
    requires frames != [] && AllFit(frames, format, frames[0].link)
    ensures Import(File(frames, format, snaplen)) == Ok(frames)
  {
    hide Header, Field, EncodeAll, Records;
    var link, area := frames[0].link, EncodeAll(frames, format);
    assert File(frames, format, snaplen) == Field(Magic(format), false) + Header(format, snaplen, link) + area;
    HeaderRead(format, snaplen, link, area);
    assert frames[..|frames|] == frames && area[..|area|] == area;
    TruncatedRecords(frames, format, link, |area|, |frames|);
  }

  /** A file cut anywhere in its record area imports as its complete leading frames. */
  lemma TruncatedImport(frames: seq<Frame>, format: Format, snaplen: u32, cut: nat, n: nat)
    requires frames != [] && AllFit(frames, format, frames[0].link) && n <= |frames|
    requires HEADER_END + |EncodeAll(frames[..n], format)| <= cut <= |File(frames, format, snaplen)|
    requires n < |frames| ==> cut < HEADER_END + |EncodeAll(frames[..n + 1], format)|
    ensures Import(File(frames, format, snaplen)[..cut]) == Ok(frames[..n])
  {
    hide Header, Field, EncodeAll, Records, AllFit;
    var link, area := frames[0].link, EncodeAll(frames, format);
    var head := Field(Magic(format), false) + Header(format, snaplen, link);
    assert File(frames, format, snaplen) == head + area;
    assert (head + area)[..cut] == head + area[..cut - HEADER_END];
    HeaderRead(format, snaplen, link, area[..cut - HEADER_END]);
    TruncatedRecords(frames, format, link, cut - HEADER_END, n);
  }
}
