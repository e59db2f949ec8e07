/** `fileHandler`: route one file by its extension to the PNG or JPEG optimizer or to the
    Gzip transaction, and account for it in the global savings counters. */
module Dispatch {
  import opened Wrappers
  import opened Disk
  import opened CStrings
  import opened Options
  import opened Codecs
  import opened Gzip

  /** Files of this many bytes or more are reported as too big and left alone. */
  const SizeCeiling: nat := 1200000000

  predicate IsPngExt(x: string) {
    x == "PNG" || x == "png"
  }

  predicate IsJpegExt(x: string) {
    x == "jpg" || x == "JPG" || x == "JPEG" || x == "jpeg"
  }

  /** Where a file goes: the PNG or JPEG optimizer, the Gzip transaction, or nowhere. */
  datatype Route = ToPng | ToJpeg | ToGzip | Ignore

  /** The routing of `fileHandler`: a file is handled when its codec is enabled for its
      extension, or always in Gzip mode for a top-level file; once handled, the extension
      alone picks the codec, so Gzip mode still sends a `.png` to the PNG optimizer. */
  function RouteOf(o: EctOptions, infile: string, internal: bool): (k: Route)
    ensures k != Ignore <==>
      (o.pngActive && IsPngExt(Extension(infile))) || (o.jpegActive && IsJpegExt(Extension(infile))) || (o.gzip && !internal)
    ensures k == ToPng ==> IsPngExt(Extension(infile))
    ensures k == ToJpeg ==> IsJpegExt(Extension(infile)) && !IsPngExt(Extension(infile))
    ensures k == ToGzip ==> o.gzip && !internal && !IsPngExt(Extension(infile)) && !IsJpegExt(Extension(infile))
  {
    var x := Extension(infile);
    if !((o.pngActive && IsPngExt(x)) || (o.jpegActive && IsJpegExt(x)) || (o.gzip && !internal)) then Ignore
    else if IsPngExt(x) then ToPng
    else if IsJpegExt(x) then ToJpeg
    else ToGzip
  }

  /** Gzip mode overrides `--disable-png` and `--disable-jpeg` for top-level files. */
  lemma GzipModeOverridesDisable(o: EctOptions, infile: string)
    requires o.gzip && !o.pngActive && !o.jpegActive
    ensures IsPngExt(Extension(infile)) ==> RouteOf(o, infile, false) == ToPng
    ensures IsJpegExt(Extension(infile)) ==> RouteOf(o, infile, false) == ToJpeg
    ensures RouteOf(o, infile, true) == Ignore
  {
  }

  /** The three global counters: files processed, bytes read, bytes saved. */
  datatype Tally = Tally(processed: nat, bytes: nat, savings: int)

  /** The counters `processedfiles`, `bytes` and `savings`, shared by every handler. */
  class Counters {
    var processed: nat
    var bytes: nat
    var savings: int

    function Value(): Tally
      reads this
    {
      Tally(processed, bytes, savings)
    }

    constructor ()
      ensures Value() == Tally(0, 0, 0)
    {
      processed, bytes, savings := 0, 0, 0;
    }

    /** The three `fetch_add`s of one accounted operation. */
    method Add(files: nat, size: nat, saved: int)
      modifies this
      ensures Value() == Tally(old(processed) + files, old(bytes) + size, old(savings) + saved)
    {
      processed := processed + files;
      bytes := bytes + size;
      savings := savings + saved;
    }
  }

  /** What the external codecs do for one file. */
  datatype FileOracle = FileOracle(png: PngOracle, jpegFirst: JpegResult, jpegSecond: JpegResult, gz: GzOracle)

  /** The error `fileHandler` returns, the files afterwards, and the counters afterwards. */
  datatype Handled = Handled(error: nat, files: map<string, nat>, tally: Tally)

  /** The status of the Gzip transaction for this file (0 when it does not run). */
  function GzStatus(files: map<string, nat>, dirs: set<string>, infile: string, o: EctOptions,
                    internal: bool, fo: FileOracle): (s: nat)
    ensures s <= 2
  {
    if RouteOf(o, infile, internal) == ToGzip && infile in files && files[infile] < SizeCeiling then
      GzipSpec(files, dirs, infile, files[infile], o.zip, o.strict, fo.gz).status
    else 0
  }

  /** The file whose size measures the saving: the new sibling when Gzip wrote one,
      otherwise the input itself. */
  function SavingsTarget(infile: string, o: EctOptions, status: nat): string {
    if status == 0 then infile else Sibling(infile, o.zip)
  }

  /** A file is accounted for when it is routed, readable, under the ceiling, not refused
      by the Gzip transaction, and the handler runs at top level with the report on. */
  predicate Counted(files: map<string, nat>, dirs: set<string>, infile: string, o: EctOptions,
                    internal: bool, fo: FileOracle) {
    && RouteOf(o, infile, internal) != Ignore
    && infile in files && files[infile] < SizeCeiling
    && GzStatus(files, dirs, infile, o, internal, fo) != 2
    && o.savingsCounter && !internal
  }

  /** The files after the codec or transaction for a routed, readable file under the ceiling. */
  function Optimized(files: map<string, nat>, dirs: set<string>, infile: string, o: EctOptions,
                     route: Route, fo: FileOracle): (after: map<string, nat>)
    requires route != Ignore && infile in files
    ensures forall p :: p in files && p != infile && p != BakOf(infile) ==> p in after && after[p] == files[p]
    ensures BakOf(infile) in after ==> BakOf(infile) in files && after[BakOf(infile)] == files[BakOf(infile)]
    ensures forall p :: p in after && p !in files ==> p == Sibling(infile, o.zip)
  {
    BakIsNeither(infile, o.zip);
    var size := files[infile];
    match route
    case ToPng =>
      // the `.bak` comparison of effort level 1 unlinks the backup or renames it over the input
      var run := OptimizePng(o, size, fo.png);
      var kept := if SettlesBak(o, size, fo.png) then files - {BakOf(infile)} else files;
      kept[infile := run.size as nat]
    case ToJpeg => files[infile := OptimizeJpeg(o, size, fo.jpegFirst, fo.jpegSecond).size]
    case _ => GzipSpec(files, dirs, infile, size, o.zip, o.strict, fo.gz).files
  }

  /** The error the codec reports: the PNG or JPEG optimizer's status; the Gzip
      transaction's own status is not an error once it is not a refusal. */
  function CodecError(o: EctOptions, size: nat, route: Route, fo: FileOracle): nat {
    match route
    case ToPng => OptimizePng(o, size, fo.png).status
    case ToJpeg => OptimizeJpeg(o, size, fo.jpegFirst, fo.jpegSecond).status
    case _ => 0
  }

  /** The backup name differs from the file and from its Gzip sibling. */
  lemma BakIsNeither(infile: string, zip: bool)
    ensures BakOf(infile) != infile && BakOf(infile) != Sibling(infile, zip)
  {
    var n := |infile|;
    assert |BakOf(infile)| == n + 4 && BakOf(infile)[n + 1] == 'b';
    if zip {
      assert Sibling(infile, zip)[n + 1] == 'z';
    }
  }

  /** `fileHandler(Infile, Options, internal)` from the files and counters before it. */
  function Handle(files: map<string, nat>, dirs: set<string>, infile: string, o: EctOptions,
                  internal: bool, fo: FileOracle, t: Tally): (h: Handled)
    ensures h.error <= 1
    // a file nobody handles, a file that cannot be read, and a file that is too big
    ensures RouteOf(o, infile, internal) == Ignore ==> h == Handled(0, files, t)
    ensures RouteOf(o, infile, internal) != Ignore && infile !in files ==> h == Handled(1, files, t)
    ensures infile in files && files[infile] >= SizeCeiling ==> h.error == 0 && h.files == files && h.tally == t
    // a refused Gzip transaction is an error and changes nothing
    ensures GzStatus(files, dirs, infile, o, internal, fo) == 2 ==> h == Handled(1, files, t)
    // one more file, its original size in bytes, and what it saved against its result
    ensures h.tally == if Counted(files, dirs, infile, o, internal, fo) then
      Tally(t.processed + 1, t.bytes + files[infile],
            t.savings + (files[infile] - SizeOf(h.files, SavingsTarget(infile, o, GzStatus(files, dirs, infile, o, internal, fo)))))
      else t
    // nothing but the input, its `.bak` backup and its Gzip sibling is touched, and the
    // backup can only disappear
    ensures forall p :: p in files && p != infile && p != BakOf(infile) ==> p in h.files && h.files[p] == files[p]
    ensures BakOf(infile) in h.files ==> BakOf(infile) in files && h.files[BakOf(infile)] == files[BakOf(infile)]
    ensures forall p :: p in h.files && p !in files ==> p == Sibling(infile, o.zip)
  {
    var route := RouteOf(o, infile, internal);
    if route == Ignore then Handled(0, files, t)
    else if infile !in files then Handled(1, files, t)
    else
      var size := files[infile];
      if size >= SizeCeiling then Handled(0, files, t)
      else
        var status := GzStatus(files, dirs, infile, o, internal, fo);
        if status == 2 then Handled(1, files, t)
        else
          var after := Optimized(files, dirs, infile, o, route, fo);
          var error := CodecError(o, size, route, fo);
          var tally := if o.savingsCounter && !internal then
            Tally(t.processed + 1, t.bytes + size, t.savings + (size - SizeOf(after, SavingsTarget(infile, o, status))))
            else t;
          Handled(error, after, tally)
  }

  /** For a readable file under the ceiling, the error of `fileHandler` is the PNG or JPEG
      optimizer's status, and 0 once the Gzip transaction did not refuse; the file takes
      the size the optimizer leaves, or the transaction's files are the result. */
  lemma HandleReportsCodecStatus(files: map<string, nat>, dirs: set<string>, infile: string, o: EctOptions,
                                 internal: bool, fo: FileOracle, t: Tally)
    requires infile in files && files[infile] < SizeCeiling
    ensures RouteOf(o, infile, internal) == ToPng ==>
      var run := OptimizePng(o, files[infile], fo.png);
      var h := Handle(files, dirs, infile, o, internal, fo, t);
      var kept := if SettlesBak(o, files[infile], fo.png) then files - {BakOf(infile)} else files;
      h.error == run.status && h.files == kept[infile := run.size as nat]
    ensures RouteOf(o, infile, internal) == ToJpeg ==>
      var run := OptimizeJpeg(o, files[infile], fo.jpegFirst, fo.jpegSecond);
      var h := Handle(files, dirs, infile, o, internal, fo, t);
      h.error == run.status && h.files == files[infile := run.size]
    ensures RouteOf(o, infile, internal) == ToGzip && GzStatus(files, dirs, infile, o, internal, fo) != 2 ==>
      var h := Handle(files, dirs, infile, o, internal, fo, t);
      h.error == 0 && h.files == GzipSpec(files, dirs, infile, files[infile], o.zip, o.strict, fo.gz).files
  {
  }

  /** A PNG handled at effort level 1 loses the file beside it named like its `.bak`
      backup whenever the comparison runs, whether or not `Optipng` wrote that file:
      the comparison never checks that the backup is its own, and under `--allfilters`
      no codec runs at all. Every other route and effort level leaves that file alone. */
  lemma HandleDropsBak(files: map<string, nat>, dirs: set<string>, infile: string, o: EctOptions,
                       internal: bool, fo: FileOracle, t: Tally)
    requires infile in files && files[infile] < SizeCeiling && RouteOf(o, infile, internal) != Ignore
    ensures var h := Handle(files, dirs, infile, o, internal, fo, t);
      BakOf(infile) in files ==>
        (BakOf(infile) !in h.files <==>
         RouteOf(o, infile, internal) == ToPng && PngMode(o) == 1 && (o.allFilters || fo.png.optipng != -1))
  {
    if RouteOf(o, infile, internal) == ToGzip {
      assert BakOf(infile) != infile;
    }
  }

  /** A file handled at effort level 1 without `-strip` never grows, and neither does one
      the Gzip transaction recompresses in place. */
  lemma HandleNeverGrowsInPlace(files: map<string, nat>, dirs: set<string>, infile: string, o: EctOptions,
                                internal: bool, fo: FileOracle, t: Tally)
    requires infile in files
    requires RouteOf(o, infile, internal) == ToGzip ||
             (RouteOf(o, infile, internal) == ToPng && PngMode(o) == 1 && !o.strip && (o.allFilters || fo.png.optipng != -1))
    ensures infile in Handle(files, dirs, infile, o, internal, fo, t).files
    ensures Handle(files, dirs, infile, o, internal, fo, t).files[infile] <= files[infile]
  {
    if RouteOf(o, infile, internal) == ToPng && files[infile] < SizeCeiling {
      EffortOneNeverGrows(o, files[infile], fo.png);
    }
  }

  /** The codec step of `fileHandler` for a routed, readable file under the ceiling: the
      extension picks the PNG or JPEG optimizer, and anything else runs the Gzip
      transaction. A refused transaction changes nothing. */
  method OptimizeFile(d: FileSystem, infile: string, size: nat, o: EctOptions, internal: bool, fo: FileOracle)
    returns (error: nat, status: nat)
    requires RouteOf(o, infile, internal) != Ignore && infile in d.files && d.files[infile] == size < SizeCeiling
    modifies d
    ensures status == GzStatus(old(d.files), d.dirs.Keys, infile, o, internal, fo)
    ensures status == 2 ==> d.files == old(d.files)
    ensures status != 2 ==>
      var route := RouteOf(o, infile, internal);
      d.files == Optimized(old(d.files), d.dirs.Keys, infile, o, route, fo) && error == CodecError(o, size, route, fo)
    ensures d.archives == old(d.archives)
  {
    var x := Extension(infile);
    error, status := 0, 0;
    if IsPngExt(x) {
      var run := OptimizePng(o, size, fo.png);
      if SettlesBak(o, size, fo.png) {
        d.Unlink(BakOf(infile));
      }
      d.Write(infile, run.size as nat);
      error := run.status;
    } else if IsJpegExt(x) {
      var run := OptimizeJpeg(o, size, fo.jpegFirst, fo.jpegSecond);
      d.Write(infile, run.size);
      error := run.status;
    } else if o.gzip && !internal {
      status := EctGzip(d, infile, size, o.zip, o.strict, fo.gz);
    }
  }

  /** `fileHandler`, step by step, updating the file system and the counters in place. */
  method FileHandler(d: FileSystem, c: Counters, infile: string, o: EctOptions, internal: bool, fo: FileOracle)
    returns (error: nat)
    modifies d, c
    ensures var h := Handle(old(d.files), d.dirs.Keys, infile, o, internal, fo, old(c.Value()));
      error == h.error && d.files == h.files && c.Value() == h.tally
    ensures d.archives == old(d.archives)
  {
    var x := Extension(infile);
    error := 0;
    if (o.pngActive && IsPngExt(x)) || (o.jpegActive && IsJpegExt(x)) || (o.gzip && !internal) {
      var size := d.Size(infile);
      if size < 0 {
        return 1;
      }
      if size < SizeCeiling {
        var status;
        error, status := OptimizeFile(d, infile, size as nat, o, internal, fo);
        if status == 2 {
          return 1;
        }
        if o.savingsCounter && !internal {
          var saved := if status == 0 then size - d.Size(infile) else size - d.Size(Sibling(infile, o.zip));
          c.Add(1, size as nat, saved);
        }
      }
    }
  }
}
