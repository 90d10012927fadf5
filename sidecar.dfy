/**
 * The sidecar file `<data file>.binmap` that `Layouter.saveFile` writes and
 * `Layouter.loadBinmapFile` reads (Binmap/Screens/Layouter.cs), as pure
 * functions on bytes. The file is a `BinaryWriter` stream: the strings
 * "BINMAP", the program version and the data file's name, the number of
 * records as an int32, then one entry per annotated record (int32 offset,
 * format byte, bool byte, comment string) in the order of the records.
 */
module Sidecars {
  import opened Wrappers
  import opened Bins
  import opened Streams

  const Signature := "BINMAP"

  /** `Main.Version`. */
  const Version := "1.5"

  /** Only a record whose format code is above 0 (not Hex) or that carries a line break gets an entry. */
  predicate Emitted(n: Note) {
    Code(n.format) > 0 || n.lineBreak
  }

  /** What the writer needs of a record: its offset and its annotation. */
  type Record = (Offset, Note)

  /** A store the writer can write: an int32 count and comments whose byte counts fit an int32. */
  predicate Storable(rs: seq<Record>) {
    |rs| < Two31 && forall i :: 0 <= i < |rs| ==> Writable(rs[i].1.comment)
  }

  /** Record i has offset i, as `LoadFile` numbers the records. */
  predicate Numbered(rs: seq<Record>) {
    forall i :: 0 <= i < |rs| ==> rs[i].0 == i
  }

  /** Every format is one the C# enum can hold. */
  predicate Formats(rs: seq<Record>) {
    forall i :: 0 <= i < |rs| ==> WellFormed(rs[i].1.format)
  }

  lemma HeaderStringsWritable()
    ensures Writable(Signature) && Writable(Version)
  {
    AsciiUtf8(Signature);
    AsciiUtf8(Version);
  }

  /** One entry of the file. */
  function EncodeEntry(r: Record): seq<Byte>
    requires Writable(r.1.comment)
  {
    WriteInt32(r.0) + ([Code(r.1.format)] + (WriteBool(r.1.lineBreak) + WriteString(r.1.comment)))
  }

  /** The entries of records k, k + 1, ...: the emitted ones, in order. */
  function EncodeEntries(rs: seq<Record>, k: nat): seq<Byte>
    requires k <= |rs| && Storable(rs)
    decreases |rs| - k
  {
    if k == |rs| then []
    else if Emitted(rs[k].1) then EncodeEntry(rs[k]) + EncodeEntries(rs, k + 1)
    else EncodeEntries(rs, k + 1)
  }

  /** What `saveFile` writes behind the header: the record count, then the entries. */
  function EncodeBody(rs: seq<Record>): seq<Byte>
    requires Storable(rs)
  {
    WriteInt32(|rs|) + EncodeEntries(rs, 0)
  }

  /** `saveFile`: the signature, the version, the data file name, then the body. */
  function Encode(name: string, rs: seq<Record>): seq<Byte>
    requires Writable(name) && Storable(rs)
  {
    HeaderStringsWritable();
    WriteString(Signature) + (WriteString(Version) + (WriteString(name) + EncodeBody(rs)))
  }

  /** An entry as the reader sees it: the format byte is not checked, the offset not yet. */
  datatype Entry = Entry(offset: int, format: Byte, lineBreak: bool, comment: string)

  function EntryOf(r: Record): Entry {
    Entry(r.0, Code(r.1.format), r.1.lineBreak, r.1.comment)
  }

  /** The entries that the records from k on are written as. */
  function EntriesOf(rs: seq<Record>, k: nat): (es: seq<Entry>)
    requires k <= |rs|
    decreases |rs| - k
  {
    if k == |rs| then []
    else if Emitted(rs[k].1) then [EntryOf(rs[k])] + EntriesOf(rs, k + 1)
    else EntriesOf(rs, k + 1)
  }

  /** One entry: `ReadInt32`, `ReadByte`, `ReadBoolean`, `ReadString`. */
  function ReadEntry(d: seq<Byte>): (r: Result<(Entry, seq<Byte>), Failure>)
    ensures r.Ok? ==> |r.value.1| < |d|
  {
    match ReadInt32(d)
    case Err(e) => Err(e)
    case Ok((offset, d1)) =>
      match ReadByte(d1)
      case Err(e) => Err(e)
      case Ok((format, d2)) =>
        match ReadBool(d2)
        case Err(e) => Err(e)
        case Ok((lineBreak, d3)) =>
          match ReadString(d3)
          case Err(e) => Err(e)
          case Ok((comment, rest)) => Ok((Entry(offset, format, lineBreak, comment), rest))
  }

  /**
   * The loop `while (Position != Length)`: the entries read up to the end of
   * the stream, and the failure that ended the reading early, if one did.
   */
  function Scan(d: seq<Byte>): (r: (seq<Entry>, Option<Failure>))
    decreases |d|
  {
    if d == [] then ([], None)
    else
      match ReadEntry(d)
      case Err(e) => ([], Some(e))
      case Ok((e, rest)) =>
        var (es, stop) := Scan(rest);
        ([e] + es, stop)
  }

  /** The annotation an entry gives its record: the format byte cast to the enum as it is. */
  function NoteOf(e: Entry): (n: Note)
    ensures Code(n.format) == e.format && n.lineBreak == e.lineBreak && n.comment == e.comment
  {
    Note(FromCode(e.format), e.lineBreak, e.comment)
  }

  /**
   * `list.Bins[offset]` and the three assignments, entry by entry, on the
   * records' annotations: the first offset outside the list stops it, and
   * the entries before that one stay applied.
   */
  function Apply(notes: seq<Note>, es: seq<Entry>): (r: (seq<Note>, Option<int>))
    decreases |es|
    ensures |r.0| == |notes|
  {
    if es == [] then (notes, None)
    else
      var o := es[0].offset;
      if 0 <= o < |notes| then Apply(notes[o := NoteOf(es[0])], es[1..])
      else (notes, Some(o))
  }

  /**
   * What applying does: it stops exactly when some offset is outside the
   * list, at such an offset, and a record no entry names keeps its annotation.
   */
  lemma {:induction false} ApplyOutcome(notes: seq<Note>, es: seq<Entry>)
    decreases |es|
    ensures Apply(notes, es).1.None? <==> forall k :: 0 <= k < |es| ==> 0 <= es[k].offset < |notes|
    ensures Apply(notes, es).1.Some? ==>
      exists k :: 0 <= k < |es| && es[k].offset == Apply(notes, es).1.value && !(0 <= es[k].offset < |notes|)
    ensures forall i :: 0 <= i < |notes| && (forall k :: 0 <= k < |es| ==> es[k].offset != i) ==>
      Apply(notes, es).0[i] == notes[i]
  {
    if es != [] && 0 <= es[0].offset < |notes| {
      ApplyOutcome(notes[es[0].offset := NoteOf(es[0])], es[1..]);
      assert forall k :: 0 < k < |es| ==> es[k] == es[1..][k - 1];
    }
  }

  /** Why a sidecar is turned down without a change to any record. */
  datatype Reason = Missing | NotSidecar | BadSignature | CountMismatch

  /** An exception: a read past the end or a malformed count, or an offset outside the list. */
  datatype Fault = Stream(failure: Failure) | OutOfRange(offset: int)

  datatype Outcome = Accepted | Rejected(reason: Reason) | Thrown(fault: Fault)

  /** The header as read, with the bytes behind it: a wrong signature ends the reading after the first string. */
  datatype Header = WrongSignature | Header(version: string, dataName: string, body: seq<Byte>)

  function ReadHeader(d: seq<Byte>): (r: Result<Header, Failure>)
    ensures r.Ok? && r.value.Header? ==> |r.value.body| < |d|
  {
    match ReadString(d)
    case Err(e) => Err(e)
    case Ok((signature, d1)) =>
      if signature != Signature then Ok(WrongSignature)
      else
        match ReadString(d1)
        case Err(e) => Err(e)
        case Ok((version, d2)) =>
          match ReadString(d2)
          case Err(e) => Err(e)
          case Ok((name, body)) => Ok(Header(version, name, body))
  }

  /**
   * What the apply mode does after the header: the stored count must equal
   * the number of records, then the entries are applied until the stream ends.
   */
  function ReadBody(d: seq<Byte>, notes: seq<Note>): (r: (Outcome, seq<Note>))
    ensures |r.1| == |notes|
    ensures r.0.Rejected? ==> r.0 == Rejected(CountMismatch) && r.1 == notes
  {
    match ReadInt32(d)
    case Err(e) => (Thrown(Stream(e)), notes)
    case Ok((count, entries)) =>
      if count != |notes| then (Rejected(CountMismatch), notes)
      else
        var (es, stop) := Scan(entries);
        var (notes', bad) := Apply(notes, es);
        if bad.Some? then (Thrown(OutOfRange(bad.value)), notes')
        else if stop.Some? then (Thrown(Stream(stop.value)), notes')
        else (Accepted, notes')
  }

  /** Once the count is read and matches, the body reads as its entries applied to the notes. */
  lemma BodyApplies(d: seq<Byte>, notes: seq<Note>, entries: seq<Byte>)
    requires ReadInt32(d) == Ok((|notes|, entries))
    ensures ReadBody(d, notes).1 == Apply(notes, Scan(entries).0).0
    ensures ReadBody(d, notes).0 ==
      if Apply(notes, Scan(entries).0).1.Some? then Thrown(OutOfRange(Apply(notes, Scan(entries).0).1.value))
      else if Scan(entries).1.Some? then Thrown(Stream(Scan(entries).1.value))
      else Accepted
  {
  }

  /** The outcome of a load, the data file name once the header was read, and the records' annotations after it. */
  datatype Loading = Loading(outcome: Outcome, dataName: Option<string>, notes: seq<Note>)

  /**
   * `loadBinmapFile` on the bytes of an existing `.binmap` file: a wrong
   * signature and, in the apply mode, a wrong count turn the file down and
   * change no record; without the apply mode no record changes either. The
   * data file name is taken as soon as the header is read.
   */
  function Load(d: seq<Byte>, notes: seq<Note>, apply: bool): (r: Loading)
    ensures |r.notes| == |notes|
    ensures r.outcome.Rejected? || !apply ==> r.notes == notes
    ensures r.outcome == Rejected(BadSignature) <==> ReadHeader(d) == Ok(WrongSignature)
    ensures r.outcome == Rejected(CountMismatch) ==> apply
    ensures r.dataName.Some? <==> ReadHeader(d).Ok? && ReadHeader(d).value.Header?
    ensures r.outcome == Accepted ==> r.dataName.Some?
  {
    LoadHeader(ReadHeader(d), notes, apply)
  }

  /** What a load makes of the header it read, or of the exception reading the header threw. */
  function LoadHeader(h: Result<Header, Failure>, notes: seq<Note>, apply: bool): (r: Loading)
    ensures |r.notes| == |notes|
    ensures r.outcome.Rejected? || !apply ==> r.notes == notes
    ensures r.outcome == Rejected(BadSignature) <==> h == Ok(WrongSignature)
    ensures r.outcome == Rejected(CountMismatch) ==> apply
    ensures r.dataName.Some? <==> h.Ok? && h.value.Header?
    ensures r.outcome == Accepted ==> r.dataName.Some?
  {
    match h
    case Err(e) => Loading(Thrown(Stream(e)), None, notes)
    case Ok(WrongSignature) => Loading(Rejected(BadSignature), None, notes)
    case Ok(Header(_, name, body)) =>
      if !apply then Loading(Accepted, Some(name), notes)
      else
        var (outcome, notes') := ReadBody(body, notes);
        Loading(outcome, Some(name), notes')
  }

  /** An entry whose four fields read back reads back. */
  lemma EntryReads(d: seq<Byte>, e: Entry, d1: seq<Byte>, d2: seq<Byte>, d3: seq<Byte>, rest: seq<Byte>)
    requires ReadInt32(d) == Ok((e.offset, d1))
    requires ReadByte(d1) == Ok((e.format, d2))
    requires ReadBool(d2) == Ok((e.lineBreak, d3))
    requires ReadString(d3) == Ok((e.comment, rest))
    ensures ReadEntry(d) == Ok((e, rest))
  {
  }

  /** An entry reads back as the entry of its record, whatever follows it. */
  lemma EntryRoundTrip(r: Record, rest: seq<Byte>)
    requires Writable(r.1.comment)
    ensures ReadEntry(EncodeEntry(r) + rest) == Ok((EntryOf(r), rest))
  {
    var o := WriteInt32(r.0);
    var f := [Code(r.1.format)];
    var b := WriteBool(r.1.lineBreak);
    var c := WriteString(r.1.comment);
    assert (o + (f + (b + c))) + rest == o + (f + (b + (c + rest)));
    Int32RoundTrip(r.0, f + (b + (c + rest)));
    ByteRoundTrip(Code(r.1.format), b + (c + rest));
    BoolRoundTrip(r.1.lineBreak, c + rest);
    StringRoundTrip(r.1.comment, rest);
    EntryReads(EncodeEntry(r) + rest, EntryOf(r), f + (b + (c + rest)), b + (c + rest), c + rest, rest);
  }

  /** Reading goes on behind an entry that reads back. */
  lemma ScanStep(d: seq<Byte>, e: Entry, rest: seq<Byte>)
    requires d != [] && ReadEntry(d) == Ok((e, rest))
    ensures Scan(d) == ([e] + Scan(rest).0, Scan(rest).1)
  {
  }

  /** The entries of the records from k on read back as the records' entries, up to the end. */
  lemma {:induction false} ScanRoundTrip(rs: seq<Record>, k: nat)
    requires k <= |rs| && Storable(rs)
    ensures Scan(EncodeEntries(rs, k)) == (EntriesOf(rs, k), None)
    decreases |rs| - k
  {
    if k < |rs| {
      if Emitted(rs[k].1) {
        EntryRoundTrip(rs[k], EncodeEntries(rs, k + 1));
        ScanStep(EncodeEntries(rs, k), EntryOf(rs[k]), EncodeEntries(rs, k + 1));
        ScanRoundTrip(rs, k + 1);
      } else {
        ScanRoundTrip(rs, k + 1);
      }
    }
  }

  /** An entry whose offset is in range is applied, and the rest go on from there. */
  lemma ApplyStep(notes: seq<Note>, e: Entry, es: seq<Entry>)
    requires 0 <= e.offset < |notes|
    ensures Apply(notes, [e] + es) == Apply(notes[e.offset := NoteOf(e)], es)
  {
    assert ([e] + es)[1..] == es;
  }

  /** An emitted record's entry gives it its annotation back. */
  lemma EntryNote(r: Record)
    requires WellFormed(r.1.format)
    ensures NoteOf(EntryOf(r)) == r.1
  {
    CodeRoundTrip(r.1.format);
  }

  /**
   * Applying the entries of numbered records from k on: no offset is out of
   * range, every emitted record from k on gets its annotation back, and the
   * other annotations stay.
   */
  lemma {:induction false} ApplyRoundTrip(notes: seq<Note>, rs: seq<Record>, k: nat)
    requires k <= |rs| == |notes| && Numbered(rs) && Formats(rs)
    ensures Apply(notes, EntriesOf(rs, k)).1 == None
    ensures forall i :: 0 <= i < |rs| ==>
      Apply(notes, EntriesOf(rs, k)).0[i] == if k <= i && Emitted(rs[i].1) then rs[i].1 else notes[i]
    decreases |rs| - k
  {
    if k < |rs| {
      if Emitted(rs[k].1) {
        ApplyStep(notes, EntryOf(rs[k]), EntriesOf(rs, k + 1));
        EntryNote(rs[k]);
        ApplyRoundTrip(notes[k := rs[k].1], rs, k + 1);
        assert Apply(notes, EntriesOf(rs, k)) == Apply(notes[k := rs[k].1], EntriesOf(rs, k + 1));
        forall i | 0 <= i < |rs|
          ensures Apply(notes, EntriesOf(rs, k)).0[i] == if k <= i && Emitted(rs[i].1) then rs[i].1 else notes[i]
        {
          assert Apply(notes, EntriesOf(rs, k)).0[i] == if k + 1 <= i && Emitted(rs[i].1) then rs[i].1 else notes[k := rs[k].1][i];
        }
      } else {
        ApplyRoundTrip(notes, rs, k + 1);
        assert Apply(notes, EntriesOf(rs, k)) == Apply(notes, EntriesOf(rs, k + 1));
      }
    }
  }

  /** A header whose three strings read back reads back. */
  lemma HeaderReads(d: seq<Byte>, signature: string, version: string, name: string,
                    d1: seq<Byte>, d2: seq<Byte>, body: seq<Byte>)
    requires signature == Signature
    requires ReadString(d) == Ok((signature, d1))
    requires ReadString(d1) == Ok((version, d2))
    requires ReadString(d2) == Ok((name, body))
    ensures ReadHeader(d) == Ok(Header(version, name, body))
  {
  }

  /** The header of a written file reads back, with the body behind it. */
  lemma HeaderRoundTrip(name: string, rs: seq<Record>)
    requires Writable(name) && Storable(rs)
    ensures ReadHeader(Encode(name, rs)) == Ok(Header(Version, name, EncodeBody(rs)))
  {
    HeaderStringsWritable();
    StringRoundTrip(Signature, WriteString(Version) + (WriteString(name) + EncodeBody(rs)));
    StringRoundTrip(Version, WriteString(name) + EncodeBody(rs));
    StringRoundTrip(name, EncodeBody(rs));
    HeaderReads(Encode(name, rs), Signature, Version, name,
      WriteString(Version) + (WriteString(name) + EncodeBody(rs)), WriteString(name) + EncodeBody(rs), EncodeBody(rs));
  }

  /** The body of the records, read onto as many notes: accepted, with the entries applied. */
  lemma BodyRoundTrip(rs: seq<Record>, notes: seq<Note>)
    requires Storable(rs) && |notes| == |rs|
    ensures ReadBody(EncodeBody(rs), notes).1 == Apply(notes, EntriesOf(rs, 0)).0
    ensures Apply(notes, EntriesOf(rs, 0)).1 == None ==> ReadBody(EncodeBody(rs), notes).0 == Accepted
  {
    Int32RoundTrip(|rs|, EncodeEntries(rs, 0));
    ScanRoundTrip(rs, 0);
  }

  /** The body of the records, read onto a different number of notes, is turned down. */
  lemma BodyCountChecked(rs: seq<Record>, notes: seq<Note>)
    requires Storable(rs) && |notes| != |rs|
    ensures ReadBody(EncodeBody(rs), notes) == (Rejected(CountMismatch), notes)
  {
    Int32RoundTrip(|rs|, EncodeEntries(rs, 0));
  }

  /**
   * Round trip: a written file, loaded in the apply mode onto as many
   * records as were written, is accepted, names the data file, and gives
   * every emitted record its annotation back while every other record keeps
   * the annotation it had. Without the apply mode it is accepted with the
   * name and changes nothing.
   */
  lemma RoundTrip(name: string, rs: seq<Record>, notes: seq<Note>)
    requires Writable(name) && Storable(rs) && Numbered(rs) && Formats(rs) && |notes| == |rs|
    ensures Load(Encode(name, rs), notes, false) == Loading(Accepted, Some(name), notes)
    ensures Load(Encode(name, rs), notes, true).outcome == Accepted
    ensures Load(Encode(name, rs), notes, true).dataName == Some(name)
    ensures forall i :: 0 <= i < |rs| ==>
      Load(Encode(name, rs), notes, true).notes[i] == if Emitted(rs[i].1) then rs[i].1 else notes[i]
  {
    HeaderRoundTrip(name, rs);
    BodyRoundTrip(rs, notes);
    ApplyRoundTrip(notes, rs, 0);
  }

  /** The annotations of n freshly constructed records. */
  function Defaults(n: nat): seq<Note> {
    seq(n, _ => DefaultNote)
  }

  /**
   * Sparse writing loses data: onto fresh records, a record that is Hex and
   * has no line break comes back with an empty comment, whatever comment it
   * had when it was written; every other record comes back as written.
   */
  lemma SparseLoss(name: string, rs: seq<Record>)
    requires Writable(name) && Storable(rs) && Numbered(rs) && Formats(rs)
    ensures forall i :: 0 <= i < |rs| && rs[i].1.format == Hex && !rs[i].1.lineBreak ==>
      Load(Encode(name, rs), Defaults(|rs|), true).notes[i] == DefaultNote
    ensures forall i :: 0 <= i < |rs| && (rs[i].1.format != Hex || rs[i].1.lineBreak) ==>
      Load(Encode(name, rs), Defaults(|rs|), true).notes[i] == rs[i].1
  {
    RoundTrip(name, rs, Defaults(|rs|));
    forall i | 0 <= i < |rs|
      ensures Emitted(rs[i].1) <==> rs[i].1.format != Hex || rs[i].1.lineBreak
    {
      if rs[i].1.format != Hex {
        assert Code(rs[i].1.format) != 0 by {
          if rs[i].1.format.Undefined? {
            assert WellFormed(rs[i].1.format);
          }
        }
      }
    }
  }

  /** A written file loaded in the apply mode onto a different number of records is turned down and changes nothing. */
  lemma CountChecked(name: string, rs: seq<Record>, notes: seq<Note>)
    requires Writable(name) && Storable(rs) && |notes| != |rs|
    ensures Load(Encode(name, rs), notes, true) == Loading(Rejected(CountMismatch), Some(name), notes)
  {
    HeaderRoundTrip(name, rs);
    BodyCountChecked(rs, notes);
  }
}
