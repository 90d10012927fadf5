/**
 * The screen that owns the list (Binmap/Screens/Layouter.cs): it loads a
 * data file or its `.binmap` sidecar from a file system given as a map from
 * names to contents, fills the list with one record per byte, applies the
 * sidecar, and writes the sidecar back. The `System.IO.Path` helpers it uses
 * are modelled on Windows paths, where '\' and '/' separate directories and
 * ':' follows a drive letter.
 */
module Layouters {
  import opened Wrappers
  import opened Bins
  import opened Streams
  import opened Sidecars
  import opened Flows
  import opened SortedLists
  import opened Lists

  type FileSystem = map<string, seq<Byte>>

  predicate Separator(c: char) {
    c == '\\' || c == '/'
  }

  /** A character that ends a file name when scanning back: a separator or the drive's ':'. */
  predicate NameStop(c: char) {
    Separator(c) || c == ':'
  }

  /** Where the file name of a path starts: just behind its last separator or ':'. */
  function NameStart(path: string): (k: nat)
    ensures k <= |path|
    ensures k > 0 ==> NameStop(path[k - 1])
    ensures forall i :: k <= i < |path| ==> !NameStop(path[i])
    decreases |path|
  {
    if path == [] then 0
    else if NameStop(path[|path| - 1]) then |path|
    else NameStart(path[..|path| - 1])
  }

  /** `Path.GetFileName`: the part behind the last separator or ':'. */
  function GetFileName(path: string): (name: string)
    ensures |name| <= |path| && path[|path| - |name|..] == name
    ensures forall i :: 0 <= i < |name| ==> !NameStop(name[i])
    ensures |name| < |path| ==> NameStop(path[|path| - |name| - 1])
  {
    path[NameStart(path)..]
  }

  /** A root directory: a lone separator, or a drive letter with its separator. */
  predicate IsRoot(p: string) {
    (|p| == 1 && Separator(p[0])) || (|p| == 3 && p[1] == ':' && Separator(p[2]))
  }

  /** `Path.GetDirectoryName`: the path up to its last separator, which a root keeps. */
  function GetDirectoryName(path: string): string {
    var k := NameStart(path);
    if k == 0 || !Separator(path[k - 1]) then path[..k]
    else if IsRoot(path[..k]) then path[..k]
    else path[..k - 1]
  }

  /** A path that does not lead on from another one: it starts at a separator or names a drive. */
  predicate IsRooted(p: string) {
    (|p| >= 1 && Separator(p[0])) || (|p| >= 2 && p[1] == ':')
  }

  /**
   * `Path.Combine`: an empty second part gives the first, an empty first part
   * or a rooted second part gives the second; otherwise the two parts, with a
   * separator between them when needed.
   */
  function Combine(a: string, b: string): string {
    if b == [] then a
    else if IsRooted(b) || a == [] then b
    else if NameStop(a[|a| - 1]) then a + b
    else a + "\\" + b
  }

  /** Where the extension of a path starts, scanning back from its end: its last '.', unless a separator or ':' comes first. */
  function ExtensionStart(path: string): (k: int)
    ensures -1 <= k < |path|
    ensures k >= 0 ==> path[k] == '.' && forall i :: k < i < |path| ==> path[i] != '.' && !NameStop(path[i])
    decreases |path|
  {
    if path == [] then -1
    else if path[|path| - 1] == '.' then |path| - 1
    else if NameStop(path[|path| - 1]) then -1
    else ExtensionStart(path[..|path| - 1])
  }

  /** `Path.GetExtension`: from the last '.' of the file name on, or empty when there is none or it ends the path. */
  function GetExtension(path: string): string {
    var k := ExtensionStart(path);
    if k < 0 || k == |path| - 1 then "" else path[k..]
  }

  /** Characters that cannot end a file name leave the start of the name where it was. */
  lemma {:induction false} NameBehind(s: string, t: string)
    requires forall i :: 0 <= i < |t| ==> !NameStop(t[i])
    ensures NameStart(s + t) == NameStart(s)
    decreases |t|
  {
    if t == [] {
      assert s + t == s;
    } else {
      assert (s + t)[..|s + t| - 1] == s + t[..|t| - 1];
      assert (s + t)[|s + t| - 1] == t[|t| - 1];
      NameBehind(s, t[..|t| - 1]);
    }
  }

  /** Characters that cannot end the scan for an extension leave its start where it was. */
  lemma {:induction false} ExtensionBehind(s: string, t: string)
    requires forall i :: 0 <= i < |t| ==> t[i] != '.' && !NameStop(t[i])
    ensures ExtensionStart(s + t) == ExtensionStart(s)
    decreases |t|
  {
    if t == [] {
      assert s + t == s;
    } else {
      assert (s + t)[..|s + t| - 1] == s + t[..|t| - 1];
      assert (s + t)[|s + t| - 1] == t[|t| - 1];
      ExtensionBehind(s, t[..|t| - 1]);
    }
  }

  /** The name a data file's sidecar gets is recognised as a sidecar. */
  lemma SidecarExtension(f: string)
    ensures GetExtension(f + ".binmap") == ".binmap"
  {
    assert f + ".binmap" == (f + ".") + "binmap";
    assert (f + ".")[|f + "."| - 1] == '.';
    ExtensionBehind(f + ".", "binmap");
    assert (f + ".binmap")[|f|..] == ".binmap";
  }

  /** A directory ending in a separator, with a file name and an extension behind it: the name starts right behind the directory. */
  lemma NameOfPath(dir: string, name: string, ext: string)
    requires dir == [] || Separator(dir[|dir| - 1])
    requires forall i :: 0 <= i < |name| ==> !NameStop(name[i])
    requires forall i :: 0 <= i < |ext| ==> !NameStop(ext[i])
    ensures NameStart((dir + name) + ext) == |dir|
  {
    assert NameStart(dir) == |dir| by {
      if dir != [] {
        assert dir == dir[..|dir| - 1] + [dir[|dir| - 1]];
      }
    }
    NameBehind(dir, name);
    NameBehind(dir + name, ext);
  }

  /** `GetFileName` of a directory ending in a separator with a file name behind it is that name. */
  lemma FileNameOf(dir: string, name: string)
    requires dir == [] || Separator(dir[|dir| - 1])
    requires forall i :: 0 <= i < |name| ==> !NameStop(name[i])
    ensures GetFileName(dir + name) == name
  {
    NameOfPath(dir, name, []);
    assert (dir + name) + [] == dir + name;
    assert (dir + name)[|dir|..] == name;
  }

  /**
   * The sidecar of a data file names the data file by its file name, and
   * `LoadFile` looks for that name in the sidecar's directory: it finds the
   * data file again, wherever it sat. (A data file has a name: an empty
   * stored name makes `Path.Combine` give the directory itself.)
   */
  lemma SidecarFindsData(dir: string, name: string)
    requires name != [] && forall i :: 0 <= i < |name| ==> !NameStop(name[i])
    requires IsRoot(dir) || dir == [] || (dir[|dir| - 1] == '\\' && !NameStop(dir[|dir| - 2]))
    ensures Combine(GetDirectoryName(dir + name + ".binmap"), GetFileName(dir + name)) == dir + name
  {
    NameOfPath(dir, name, ".binmap");
    FileNameOf(dir, name);
    assert ((dir + name) + ".binmap")[..|dir|] == dir;
    if dir != [] && !IsRoot(dir) {
      var up := dir[..|dir| - 1];
      assert GetDirectoryName(dir + name + ".binmap") == up;
      assert dir == up + "\\";
      assert up != [] && !NameStop(up[|up| - 1]);
    }
  }

  /**
   * `loadBinmapFile` on a file system: a missing file and a name without the
   * `.binmap` extension are turned down and change nothing; otherwise the
   * file's bytes are loaded.
   */
  function Open(fs: FileSystem, filename: string, notes: seq<Note>, apply: bool): (r: Loading)
    ensures |r.notes| == |notes|
    ensures r.outcome.Rejected? || !apply ==> r.notes == notes
    ensures r.outcome == Rejected(Missing) <==> filename !in fs
    ensures r.outcome == Rejected(NotSidecar) <==> filename in fs && GetExtension(filename) != ".binmap"
    ensures r.outcome.Rejected? && r.outcome.reason in {Missing, NotSidecar} ==> r.dataName == None
    ensures r.outcome == Accepted ==> r.dataName.Some?
  {
    if filename !in fs then Loading(Rejected(Missing), None, notes)
    else if GetExtension(filename) != ".binmap" then Loading(Rejected(NotSidecar), None, notes)
    else Load(fs[filename], notes, apply)
  }

  /**
   * A sidecar saved for a data file, opened by the name it was saved under
   * in the apply mode onto as many records, is accepted, names the data
   * file, and restores every emitted record's annotation.
   */
  lemma OpenSaved(fs: FileSystem, data: string, name: string, rs: seq<Record>, notes: seq<Note>)
    requires Writable(name) && Storable(rs) && Numbered(rs) && Formats(rs) && |notes| == |rs|
    ensures var r := Open(fs[data + ".binmap" := Encode(name, rs)], data + ".binmap", notes, true);
      && r.outcome == Accepted && r.dataName == Some(name)
      && forall i :: 0 <= i < |rs| ==> r.notes[i] == if Emitted(rs[i].1) then rs[i].1 else notes[i]
  {
    SidecarExtension(data);
    RoundTrip(name, rs, notes);
  }

  /**
   * The sidecar `saveFile` writes for records numbered from 0, read back by
   * `loadBinmapFile` in the apply mode onto as many fresh records: it is
   * accepted, names the data file, and gives each record its saved
   * annotation when the writer emitted it and the default one otherwise.
   */
  lemma SaveThenLoad(fs: FileSystem, sidecar: string, name: string, bins: seq<Bin>)
    requires GetExtension(sidecar) == ".binmap"
    requires forall i :: 0 <= i < |bins| ==> bins[i].offset == i
    requires Writable(name) && Storable(Records(bins)) && Formats(Records(bins))
    ensures var r := Open(fs[sidecar := Encode(name, Records(bins))], sidecar, Defaults(|bins|), true);
      && r.outcome == Accepted && r.dataName == Some(name)
      && forall i :: 0 <= i < |bins| ==>
           r.notes[i] == if Emitted(bins[i].Annotation()) then bins[i].Annotation() else DefaultNote
  {
    RoundTrip(name, Records(bins), Defaults(|bins|));
  }

  /**
   * The sidecar `LoadFile` settles on, an accepted one or the data file's
   * name with `.binmap` added, carries the `.binmap` extension, so a saved
   * sidecar is one `loadBinmapFile` opens.
   */
  lemma SidecarNamed(fs: FileSystem, filename: string, notes: seq<Note>)
    ensures var probe := Open(fs, filename, notes, false);
      GetExtension(if probe.outcome == Accepted then filename else filename + ".binmap") == ".binmap"
  {
    SidecarExtension(filename);
  }

  /** The annotations of the records, in list order. */
  function Notes(bins: seq<Bin>): seq<Note>
    reads bins
  {
    seq(|bins|, i reads bins => if 0 <= i < |bins| then bins[i].Annotation() else DefaultNote)
  }

  /** What the writer sees of each record: its offset and its annotation. */
  function Records(bins: seq<Bin>): seq<Record>
    reads bins
  {
    seq(|bins|, i reads bins => if 0 <= i < |bins| then (bins[i].offset, bins[i].Annotation()) else (0, DefaultNote))
  }

  predicate Distinct(bins: seq<Bin>) {
    forall i, j :: 0 <= i < j < |bins| ==> bins[i] != bins[j]
  }

  /** `bin.Format = (Bin.Formats)format; bin.LineBreak = lineBreak; bin.Comment = comment;` on the record at o. */
  method SetNote(bins: seq<Bin>, o: nat, e: Entry)
    requires Distinct(bins) && o < |bins|
    modifies bins[o]
    ensures Notes(bins) == old(Notes(bins))[o := NoteOf(e)]
    ensures forall b :: b in bins ==> b.selected == old(b.selected)
  {
    bins[o].format := FromCode(e.format);
    bins[o].lineBreak := e.lineBreak;
    bins[o].comment := e.comment;
  }

  /**
   * The body of the reading loop on the list's records, in place: each entry
   * overwrites the format, line break and comment of the record at its
   * offset, and the first offset outside the list stops it.
   */
  method ApplyEntries(bins: seq<Bin>, es: seq<Entry>) returns (bad: Option<int>)
    requires Distinct(bins)
    modifies bins
    ensures Notes(bins) == Apply(old(Notes(bins)), es).0 && bad == Apply(old(Notes(bins)), es).1
    ensures forall b :: b in bins ==> b.selected == old(b.selected)
  {
    ghost var start := Notes(bins);
    var k := 0;
    while k < |es|
      invariant 0 <= k <= |es|
      invariant Apply(Notes(bins), es[k..]) == Apply(start, es)
      invariant forall b :: b in bins ==> b.selected == old(b.selected)
    {
      var o := es[k].offset;
      if !(0 <= o < |bins|) {
        return Some(o);
      }
      assert es[k..][1..] == es[k + 1..];
      SetNote(bins, o, es[k]);
      k := k + 1;
    }
    return None;
  }

  /** `Thrown` carries the exception a load ends with; any other outcome ends normally. */
  function FaultOf(o: Outcome): Option<Fault> {
    if o.Thrown? then Some(o.fault) else None
  }

  /** The list's top edge; the buttons column starts level with it. */
  const ListTop := 10
  const ButtonHeight := 26

  /** Below the five format buttons (26 high, 4 apart), a gap of 10 and the two size buttons (30 each). */
  function ButtonsBottom(): int {
    ListTop + 5 * (ButtonHeight + 4) + 10 + 30 + 30
  }

  /** The save button is shown when there are cells and it sits below the other buttons. */
  predicate SaveShown(items: nat, listHeight: int) {
    items > 0 && ListTop + listHeight - ButtonHeight > ButtonsBottom()
  }

  /** The data file name after a load: the one its header gave, or the one from before. */
  function NameAfter(r: Loading, before: string): string {
    if r.dataName.Some? then r.dataName.value else before
  }

  /** The list's invariant survives a step that changes only the view's names. */
  twostate lemma StillValid(v: Layouter)
    requires old(v.Valid())
    requires unchanged(v.list) && unchanged(v.list.bins)
    ensures v.Valid()
  {
  }

  class Layouter {
    const list: BinList
    /** The measures of `Main.FontS` and `Main.FontL`, the two fonts `setItemFontSize` chooses from. */
    const smallFont: string -> nat
    const largeFont: string -> nat
    var dataFilename: string
    var binmapFilename: string
    var binmapDataFilename: string
    var lastError: string
    var saveVisible: bool

    /** The list holds each record once, at the index of its offset. */
    ghost predicate Valid()
      reads list, list.bins, list.lastSelectedBin
    {
      list.Valid() && list.Indexed() && Distinct(list.bins)
    }

    /** The screen with an empty list 2 pixels apart, fitted to the window, in the large font. */
    constructor (w: int, h: int, smallFont: string -> nat, largeFont: string -> nat)
      ensures Valid() && fresh(list)
      ensures dataFilename == "" && binmapFilename == "" && binmapDataFilename == "" && lastError == ""
      ensures list.bins == [] && list.selection == [] && !list.layoutLocked
      ensures list.itemSpace == Point(2, 2) && list.itemSize == Point(20, 15)
      ensures list.width == w - 96 && list.height == h - 40
      ensures this.smallFont == smallFont && this.largeFont == largeFont && list.measure == largeFont
      ensures !saveVisible
    {
      this.smallFont, this.largeFont := smallFont, largeFont;
      list := new BinList(ListTop, ListTop, 100, 100, largeFont);
      dataFilename, binmapFilename, binmapDataFilename, lastError := "", "", "", "";
      saveVisible := true;
      new;
      Arrange(w, h);
    }

    /** The constructor's calls on its new, empty list: the spacing, the size and the large font. */
    method Arrange(w: int, h: int)
      requires Valid() && list.bins == [] && list.selection == [] && !list.layoutLocked
      modifies this`saveVisible, list, list.items
      ensures Valid() && list.bins == [] && list.selection == [] && !list.layoutLocked
      ensures list.itemSpace == Point(2, 2) && list.itemSize == Point(20, 15)
      ensures list.width == w - 96 && list.height == h - 40
      ensures list.measure == largeFont && !saveVisible
    {
      list.SetItemSpace(Point(2, 2));
      Resize(w, h);
      assert list.items == [] && !saveVisible;
      SetItemFontSize(1);
    }

    /** `Resize`: the list keeps 96 pixels right of it for the buttons and 40 below it for the status line. */
    method Resize(w: int, h: int)
      requires Valid()
      modifies this`saveVisible, list, list.items
      ensures Valid() && list.width == w - 96 && list.height == h - 40
      ensures list.bins == old(list.bins) && list.selection == old(list.selection)
      ensures list.itemSize == old(list.itemSize) && list.itemSpace == old(list.itemSpace) && list.measure == old(list.measure)
      ensures list.layoutLocked == old(list.layoutLocked)
      ensures !list.layoutLocked && list.bins == [] ==> list.items == []
      ensures saveVisible == SaveShown(|list.items|, list.height)
    {
      list.Resize(w - 96, h - 40);
      saveVisible := SaveShown(|list.items|, list.height);
    }

    /**
     * `setItemFontSize`: font 0 is small and 1 is large. The font becomes the
     * one every cell is measured with, then the cells get 13 + 2 * id pixels
     * of height; a changed height lays the unlocked list out, so every placed
     * cell is as wide as its caption in the new font.
     */
    method SetItemFontSize(id: int)
      requires id == 0 || id == 1
      requires Valid()
      modifies list, list.items
      ensures Valid() && list.itemSize == Point(20, 13 + 2 * id)
      ensures list.measure == (if id == 0 then smallFont else largeFont)
      ensures list.bins == old(list.bins) && list.selection == old(list.selection)
      ensures list.itemSpace == old(list.itemSpace) && list.width == old(list.width) && list.height == old(list.height)
      ensures list.layoutLocked == old(list.layoutLocked)
      ensures old(list.itemSize) != Point(20, 13 + 2 * id) && !list.layoutLocked ==> list.LaidOut() && list.Measured()
    {
      var font: string -> nat := if id == 0 then smallFont else largeFont;
      list.measure := font;
      list.SetItemSize(Point(20, 13 + 2 * id));
      if old(list.itemSize) != Point(20, 13 + 2 * id) && !list.layoutLocked {
        list.LaidOutMeasured();
      }
    }

    /** A format button: the selected records take its format, and no other record changes. */
    method TypeButtonClicked(format: Format)
      requires Valid()
      modifies list, list.items, list.bins
      ensures Valid() && list.bins == old(list.bins) && list.selection == old(list.selection)
      ensures forall b :: b in list.bins ==> b.format == (if b in Values(list.selection) then format else old(b.format))
      ensures forall b :: b in list.bins ==> b.lineBreak == old(b.lineBreak) && b.comment == old(b.comment)
    {
      assert Values(list.selection) <= set b | b in list.bins by {
        forall b | b in Values(list.selection)
          ensures b in list.bins
        {
          var i :| 0 <= i < |list.selection| && list.selection[i].1 == b;
          assert list.selection[i] in Entries(list.selection);
        }
      }
      list.SetBinFormat(format);
    }

    /** The status line after a save. */
    static function SavedMessage(sidecar: string): string {
      "Binmap saved to " + GetFileName(sidecar)
    }

    /**
     * `saveFile`: without a data file nothing is written; otherwise the
     * sidecar, naming the data file by its file name and holding every
     * record's offset and annotation as `Encode` lays them out, replaces
     * the file at `binmapFilename`, and the status line reports it for 4
     * seconds. The view's own state does not change.
     */
    method SaveFile(fs: FileSystem) returns (fs': FileSystem, status: Option<(string, int)>)
      requires dataFilename != "" ==> Writable(GetFileName(dataFilename)) && Storable(Records(list.bins))
      ensures dataFilename == "" ==> fs' == fs && status == None
      ensures dataFilename != "" ==>
        && fs' == fs[binmapFilename := Encode(GetFileName(dataFilename), Records(list.bins))]
        && status == Some((SavedMessage(binmapFilename), 4))
    {
      if dataFilename == "" {
        return fs, None;
      }
      var rs := Records(list.bins);
      fs' := fs[binmapFilename := Encode(GetFileName(dataFilename), rs)];
      status := Some((SavedMessage(binmapFilename), 4));
    }

    /**
     * `loadBinmapFile`: the outcome, the records' annotations and the data
     * file name it takes are those of `Open` on the file system; it returns
     * true when the sidecar is accepted, and the exception it throws as a
     * fault.
     */
    method LoadBinmapFile(fs: FileSystem, filename: string, apply: bool) returns (ok: bool, fault: Option<Fault>)
      requires Valid()
      modifies this`binmapDataFilename, list.bins
      ensures Valid()
      ensures var r := Open(fs, filename, old(Notes(list.bins)), apply);
        && ok == (r.outcome == Accepted) && fault == FaultOf(r.outcome) && Notes(list.bins) == r.notes
        && binmapDataFilename == NameAfter(r, old(binmapDataFilename))
    {
      if filename !in fs {
        return false, None;
      }
      if GetExtension(filename) != ".binmap" {
        return false, None;
      }
      var header := ReadHeader(fs[filename]);
      ok, fault := TakeHeader(header, apply);
    }

    /** `loadBinmapFile` behind the header read: the signature, the data file name, then in the apply mode the body. */
    method TakeHeader(header: Result<Header, Failure>, apply: bool) returns (ok: bool, fault: Option<Fault>)
      requires Valid()
      modifies this`binmapDataFilename, list.bins
      ensures Valid()
      ensures var r := LoadHeader(header, old(Notes(list.bins)), apply);
        && ok == (r.outcome == Accepted) && fault == FaultOf(r.outcome) && Notes(list.bins) == r.notes
        && binmapDataFilename == NameAfter(r, old(binmapDataFilename))
    {
      match header
      case Err(e) =>
        return false, Some(Stream(e));
      case Ok(WrongSignature) =>
        return false, None;
      case Ok(Header(_, name, body)) =>
        binmapDataFilename := name;
        if !apply {
          return true, None;
        }
        var outcome := ApplyBody(body);
        return outcome == Accepted, FaultOf(outcome);
    }

    /**
     * The apply mode of `loadBinmapFile`, behind the header: the count must
     * match the records, then every entry up to the end of the stream
     * overwrites the annotation of the record at its offset.
     */
    method ApplyBody(body: seq<Byte>) returns (outcome: Outcome)
      requires Valid()
      modifies list.bins
      ensures Valid()
      ensures (outcome, Notes(list.bins)) == ReadBody(body, old(Notes(list.bins)))
    {
      ghost var notes := Notes(list.bins);
      var count := ReadInt32(body);
      if count.Err? {
        return Thrown(Stream(count.error));
      }
      if count.value.0 != |list.bins| {
        return Rejected(CountMismatch);
      }
      var (es, stop) := Scan(count.value.1);
      BodyApplies(body, notes, count.value.1);
      var bad := ApplyEntries(list.bins, es);
      if bad.Some? {
        return Thrown(OutOfRange(bad.value));
      }
      if stop.Some? {
        return Thrown(Stream(stop.value));
      }
      return Accepted;
    }

    /** The message `LoadFile` leaves when the data file a sidecar names is missing. */
    static function NotFound(name: string): string {
      "The associated file '" + name + "' was not found!"
    }

    /**
     * `LoadFile`: a sidecar that is accepted names the data file, which is
     * looked for in its directory; any other file is the data file itself
     * and its sidecar is the name with `.binmap` added. A missing data file
     * is reported and changes no record; otherwise the list is filled from
     * its bytes and the sidecar applied, as `Fill` says.
     */
    method LoadFile(fs: FileSystem, filename: string) returns (ok: bool, fault: Option<Fault>)
      requires Valid()
      requires forall f :: f in fs ==> |fs[f]| < Two31
      modifies this, list, list.items, list.bins, list.lastSelectedBin
      ensures Valid()
      ensures var probe := Open(fs, filename, old(Notes(list.bins)), false);
        probe.outcome.Thrown? ==>
          && !ok && fault == FaultOf(probe.outcome) && list.bins == old(list.bins) && Notes(list.bins) == old(Notes(list.bins))
          && dataFilename == old(dataFilename) && binmapFilename == old(binmapFilename) && lastError == old(lastError)
          && binmapDataFilename == NameAfter(probe, old(binmapDataFilename))
      ensures var probe := Open(fs, filename, old(Notes(list.bins)), false);
        !probe.outcome.Thrown? ==>
          && dataFilename == (if probe.outcome == Accepted then Combine(GetDirectoryName(filename), probe.dataName.value) else filename)
          && binmapFilename == (if probe.outcome == Accepted then filename else filename + ".binmap")
          && (dataFilename !in fs ==>
                && !ok && fault == None && lastError == NotFound(dataFilename) && list.bins == old(list.bins)
                && binmapDataFilename == NameAfter(probe, old(binmapDataFilename)))
          && (dataFilename !in fs || Filled(fs, NameAfter(probe, old(binmapDataFilename)), ok, fault))
      ensures !ok ==> saveVisible == old(saveVisible)
    {
      var found;
      found, fault := Locate(fs, filename);
      if !found {
        return false, fault;
      }
      ok, fault := Fill(fs);
    }

    /**
     * The first part of `LoadFile`: the sidecar probe, the file names it
     * decides, and the report of a missing data file; the records keep
     * their annotations.
     */
    method Locate(fs: FileSystem, filename: string) returns (found: bool, fault: Option<Fault>)
      requires Valid()
      modifies this`binmapDataFilename, this`dataFilename, this`binmapFilename, this`lastError, list.bins
      ensures Valid() && Notes(list.bins) == old(Notes(list.bins))
      ensures var probe := Open(fs, filename, old(Notes(list.bins)), false);
        && found == (!probe.outcome.Thrown? && dataFilename in fs)
        && fault == FaultOf(probe.outcome)
        && binmapDataFilename == NameAfter(probe, old(binmapDataFilename))
        && (probe.outcome.Thrown? ==>
              dataFilename == old(dataFilename) && binmapFilename == old(binmapFilename) && lastError == old(lastError))
        && (!probe.outcome.Thrown? ==>
              && dataFilename == (if probe.outcome == Accepted then Combine(GetDirectoryName(filename), probe.dataName.value) else filename)
              && binmapFilename == (if probe.outcome == Accepted then filename else filename + ".binmap")
              && (dataFilename !in fs ==> lastError == NotFound(dataFilename)))
    {
      var accepted, probeFault := LoadBinmapFile(fs, filename, false);
      if probeFault.Some? {
        return false, probeFault;
      }
      label Probed:
      if accepted {
        dataFilename := Combine(GetDirectoryName(filename), binmapDataFilename);
        binmapFilename := filename;
      } else {
        dataFilename := filename;
        binmapFilename := filename + ".binmap";
      }
      if dataFilename !in fs {
        lastError := NotFound(dataFilename);
        StillValid@Probed(this);
        return false, None;
      }
      StillValid@Probed(this);
      return true, None;
    }

    /**
     * The list after `Fill`: one record per byte, numbered from 0, carrying
     * the annotations that the sidecar gives fresh records; the list stays
     * locked, with no cells, when applying the sidecar threw, and is laid
     * out otherwise.
     */
    ghost predicate Filled(fs: FileSystem, name: string, ok: bool, fault: Option<Fault>)
      requires dataFilename in fs
      reads this, list, list.bins, list.lastSelectedBin, list.processed
    {
      var bytes := fs[dataFilename];
      var r := Open(fs, binmapFilename, Defaults(|bytes|), true);
      && |list.bins| == |bytes| && (forall i :: 0 <= i < |bytes| ==> list.bins[i].value == bytes[i])
      && list.selection == [] && Notes(list.bins) == r.notes
      && binmapDataFilename == NameAfter(r, name)
      && ok == !r.outcome.Thrown? && fault == FaultOf(r.outcome)
      && list.layoutLocked == !ok
      && (ok ==> list.LaidOut() && saveVisible == (|list.items| > 0))
      && (!ok ==> list.items == [])
    }

    /**
     * The part of `LoadFile` behind the file checks: the list is locked and
     * refilled from the bytes, the sidecar is applied to the fresh records,
     * and only then is the list unlocked, which lays it out.
     */
    method Fill(fs: FileSystem) returns (ok: bool, fault: Option<Fault>)
      requires Valid() && dataFilename in fs && |fs[dataFilename]| < Two31
      modifies this`binmapDataFilename, this`saveVisible, list, list.items, list.lastSelectedBin
      ensures Valid() && Filled(fs, old(binmapDataFilename), ok, fault)
      ensures !ok ==> saveVisible == old(saveVisible)
    {
      Populate(fs[dataFilename]);
      ok, fault := Finish(fs, binmapFilename);
    }

    /**
     * The sidecar `sidecar` applied to the refilled records; only when that did not
     * throw is the list unlocked, which lays it out, and the save button
     * shown when some cell is placed.
     */
    method Finish(fs: FileSystem, sidecar: string) returns (ok: bool, fault: Option<Fault>)
      requires Valid() && list.dirty
      modifies this`binmapDataFilename, this`saveVisible, list, list.items, list.bins
      ensures Valid() && list.bins == old(list.bins) && list.selection == old(list.selection)
      ensures var r := Open(fs, sidecar, old(Notes(list.bins)), true);
        && Notes(list.bins) == r.notes && binmapDataFilename == NameAfter(r, old(binmapDataFilename))
        && ok == !r.outcome.Thrown? && fault == FaultOf(r.outcome)
      ensures list.layoutLocked == (!ok && old(list.layoutLocked))
      ensures ok ==> list.LaidOut() && saveVisible == (|list.items| > 0)
      ensures !ok ==> saveVisible == old(saveVisible) && list.items == old(list.items)
    {
      var loaded, loadFault := LoadBinmapFile(fs, sidecar, true);
      if loadFault.Some? {
        return false, loadFault;
      }
      Show();
      return true, None;
    }

    /** The list unlocked, which lays it out, and the save button shown when some cell is placed. */
    method Show()
      requires Valid() && list.dirty
      modifies this`saveVisible, list, list.items
      ensures Valid() && list.bins == old(list.bins) && list.selection == old(list.selection)
      ensures Notes(list.bins) == old(Notes(list.bins)) && !list.layoutLocked
      ensures list.LaidOut() && saveVisible == (|list.items| > 0)
    {
      list.Unlock();
      label Unlocked:
      saveVisible := |list.items| > 0;
      LaidOutKept@Unlocked(list);
      StillValid@Unlocked(this);
    }

    /** The locked list, cleared, then given a fresh record for each byte, numbered from 0. */
    method Populate(bytes: seq<Byte>)
      requires Valid() && |bytes| < Two31
      modifies list, list.items, list.lastSelectedBin
      ensures Valid() && list.layoutLocked && list.dirty
      ensures |list.bins| == |bytes| && forall i :: 0 <= i < |bytes| ==> list.bins[i].value == bytes[i]
      ensures Notes(list.bins) == Defaults(|bytes|)
      ensures list.selection == [] && list.items == []
      ensures fresh(list.bins)
    {
      list.Lock();
      list.Clear();
      var i := 0;
      while i < |bytes|
        invariant 0 <= i <= |bytes|
        invariant list.Valid() && list.Indexed() && Distinct(list.bins)
        invariant |list.bins| == i
        invariant forall j :: 0 <= j < i ==> list.bins[j].value == bytes[j] && list.bins[j].Annotation() == DefaultNote
        invariant fresh(list.bins)
        invariant list.layoutLocked && list.dirty && list.items == [] && list.selection == []
      {
        var b := new Bin(bytes[i], i);
        list.AddItem(b);
        i := i + 1;
      }
    }
  }
}
