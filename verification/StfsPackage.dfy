/**
 From the bytes of a package to the bytes of its default.xex: the mount, and the extraction that
 wasm-core.js runs on the entry table the mount left.
 */
module StfsPackage {
  import opened Options
  import opened LittleEndian
  import E = StfsExtraction
  import C = StfsContents
  import opened StfsMount
  import opened StfsMountContents
  import opened StfsMounter
  import X = StfsExtractor
  import D = StfsDriver

  /** The part of a directory record that an extraction looks at. */
  function EntryOf(r: Record): E.Entry {
    E.Entry(IsDirectory(r), r.flags / 0x40 % 2 == 1, r.validBlocks, r.allocatedBlocks, r.startBlock, r.length)
  }

  function EntriesOf(rs: seq<Record>): (es: seq<E.Entry>)
    ensures |es| == |rs| && forall i :: 0 <= i < |rs| ==> es[i] == EntryOf(rs[i])
  {
    seq(|rs|, i requires 0 <= i < |rs| => EntryOf(rs[i]))
  }

  datatype Opening = GaveUp | NotMounted | NoDefaultXex | Gave(title: D.Outcome)

  /** The default.xex of a mount that ended so: the last root entry of that name. */
  function DefaultOf(f: Final): Option<Record> {
    if EndsMounted(f) && DefaultIn(f.entries).Some? && DefaultIn(f.entries).value < |f.entries|
    then Some(f.entries[DefaultIn(f.entries).value])
    else None
  }

  lemma {:induction false} DefaultIsListed(entries: seq<Record>)
    ensures DefaultIn(entries).Some? ==>
              && DefaultIn(entries).value < |entries| && IsDefaultXex(entries[DefaultIn(entries).value])
              && forall i :: DefaultIn(entries).value < i < |entries| ==> !IsDefaultXex(entries[i])
    ensures DefaultIn(entries).None? ==> forall i :: 0 <= i < |entries| ==> !IsDefaultXex(entries[i])
  {
    hide IsDefaultXex;
    if entries != [] {
      DefaultIsListed(entries[..|entries| - 1]);
    }
  }

  /**
   mountStfs with its default.xex: whatever the bytes are, the driver returns; and when the mount
   succeeds and the title's chain holds, it returns as much of the title's bytes as the capture limit
   allows, which are the blocks of its chain cut to its length. It gives up on the title only when
   the record announces so many blocks that the read limit cannot do.
   */
  method OpenPackage(file: seq<byte>, mountLimit: nat, readLimit: nat, captureLimit: int)
    returns (end: Opening, pkg: E.Package)
    ensures end.GaveUp? ==> mountLimit == 0 || mountLimit < 4 * Announced(file) - 1
    ensures !end.GaveUp? ==>
              && (EndsMounted(MountOf(file)) ==>
                    |file| >= HEADER_STRUCT_SIZE && pkg == HeaderPackage(|file|, file[..HEADER_STRUCT_SIZE]))
              && (end.NotMounted? <==> !EndsMounted(MountOf(file)))
              && (end.NoDefaultXex? <==> EndsMounted(MountOf(file)) && DefaultOf(MountOf(file)).None?)
    ensures end.Gave? ==> end.title.Extracted? || end.title.TooManyRequests?
    ensures end.Gave? && end.title.Extracted? ==>
              pkg.fileSize == |file| && DefaultOf(MountOf(file)).Some? &&
              var contents := C.FileContents(pkg, EntryOf(DefaultOf(MountOf(file)).value), file);
              && (end.title.complete <==> contents.Some?)
              && (end.title.complete ==> end.title.captured <= contents.value)
              && (end.title.complete ==> |end.title.captured| == E.Min(|contents.value|, if captureLimit < 0 then 0 else captureLimit))
    ensures end.Gave? && end.title.TooManyRequests? ==>
              && DefaultOf(MountOf(file)).Some?
              && readLimit < 4 * E.CeilBlocks(DefaultOf(MountOf(file)).value.length) - 3
  {
    hide MountOf, C.FileContents, TableBlocks, HeaderPackage;
    var m := new Mounter();
    var mounted := MountStfs(m, file, mountLimit);
    pkg := m.pkg;
    if mounted.TooManyRequests? {
      return GaveUp, pkg;
    }
    var entries := m.table[..m.entryCount];
    DefaultIsListed(entries);
    if !m.status.Mounted? && !m.status.MountedPartial? {
      return NotMounted, pkg;
    }
    if m.defaultXex.None? {
      return NoDefaultXex, pkg;
    }
    var x := new X.Extractor(m.pkg, EntriesOf(entries));
    var title := D.ExtractStfsEntry(x, file, m.defaultXex.value, readLimit, captureLimit);
    return Gave(title), pkg;
  }
}
