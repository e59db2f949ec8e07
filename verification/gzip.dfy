/** The Gzip rewrite transaction, `ECTGzip`: compress a plain file (or, in ZIP mode, any
    file) to a new sibling, or re-derive an existing Gzip stream through the sidecars
    `<name>.ungz` and `<name>.ungz.gz` and keep the result only when it is smaller. */
module Gzip {
  import opened Wrappers
  import opened Disk

  /** The verdict of the external `IsGzip`: 0 not Gzip, 1 a plain stream, 2 unreadable,
      3 a stream with an extra field, file name or comment. */
  datatype GzVerdict = NotGzip | Simple | Unreadable | Extra

  /** What the external tools do during one call: the `IsGzip` verdict, the size `ungz`
      writes (`None` when it fails), and the size `ZopfliGzip` writes (`None` when it
      writes nothing). */
  datatype GzOracle = GzOracle(verdict: GzVerdict, decompressed: Option<nat>, compressed: Option<nat>)

  /** The status `ECTGzip` returns (0 rewritten in place or kept, 1 sibling written,
      2 refused) and the files afterwards. */
  datatype GzResult = GzResult(status: nat, files: map<string, nat>)

  /** `Infile + (ZIP ? ".zip" : ".gz")`, the file `ZopfliGzip` writes. */
  function Sibling(infile: string, zip: bool): string {
    infile + (if zip then ".zip" else ".gz")
  }

  function UngzName(infile: string): string {
    infile + ".ungz"
  }

  function UngzGzName(infile: string): string {
    infile + ".ungz.gz"
  }

  /** The input is recompressed in place: Gzip mode, a readable Gzip stream, and strict
      mode does not forbid dropping its header fields. */
  predicate RewritePath(zip: bool, strict: bool, o: GzOracle) {
    !zip && (o.verdict == Simple || (o.verdict == Extra && !strict))
  }

  /** The effect of `ECTGzip` on the files, stated as its final state. `fs` is the size
      the caller read; `dirs` are the directories, which `exists()` also sees. */
  function GzipSpec(files: map<string, nat>, dirs: set<string>, infile: string, fs: nat, zip: bool,
                    strict: bool, o: GzOracle): (r: GzResult)
    ensures r.status <= 2
    // a refusal changes no file
    ensures r.status == 2 ==> r.files == files
    ensures fs == 0 || o.verdict == Unreadable || (o.verdict == Extra && strict) ==> r.status == 2
    // a plain file, or ZIP mode: a new sibling, never over an existing one
    ensures fs > 0 && o.verdict != Unreadable && !(o.verdict == Extra && strict) && (zip || o.verdict == NotGzip) ==>
      && (r.status == 2 <==> Sibling(infile, zip) in files || Sibling(infile, zip) in dirs)
      && (r.status != 2 ==> r.status == 1 && r.files == if o.compressed.Some? then files[Sibling(infile, zip) := o.compressed.value] else files)
    // a Gzip stream: refused when a sidecar exists or `ungz` fails, otherwise status 0
    ensures fs > 0 && RewritePath(zip, strict, o) ==>
      (r.status == 2 <==> UngzName(infile) in files || UngzName(infile) in dirs ||
                          UngzGzName(infile) in files || UngzGzName(infile) in dirs || o.decompressed.None?)
    ensures r.status == 0 ==> RewritePath(zip, strict, o) && UngzName(infile) !in r.files && UngzGzName(infile) !in r.files
    // the input is replaced only by a strictly smaller stream, so it never grows
    ensures r.status == 0 && infile in files ==>
      infile in r.files && (r.files[infile] != files[infile] <==> o.compressed.Some? && o.compressed.value < files[infile])
    ensures infile in files ==> infile in r.files && r.files[infile] <= files[infile]
    // no other existing file is touched, and the only file that may appear is the sibling
    ensures forall p :: p in files && p != infile ==> p in r.files && r.files[p] == files[p]
    ensures forall p :: p in r.files && p !in files ==> r.status == 1 && p == Sibling(infile, zip)
  {
    if fs == 0 || o.verdict == Unreadable || (o.verdict == Extra && strict) then
      GzResult(2, files)
    else if zip || o.verdict == NotGzip then
      var sibling := Sibling(infile, zip);
      assert |sibling| > |infile|;
      if sibling in files || sibling in dirs then GzResult(2, files)
      else GzResult(1, if o.compressed.Some? then files[sibling := o.compressed.value] else files)
    else if UngzName(infile) in files || UngzName(infile) in dirs || UngzGzName(infile) in files
            || UngzGzName(infile) in dirs || o.decompressed.None? then
      GzResult(2, files)
    else if o.compressed.Some? && o.compressed.value < SizeOf(files, infile) then
      GzResult(0, files[infile := o.compressed.value])
    else
      GzResult(0, files)
  }

  /** The external `ZopfliGzip(path, 0, ...)`: writes `path + ".gz"` (or `".zip"`) when it succeeds. */
  method ZopfliGzip(d: FileSystem, path: string, zip: bool, written: Option<nat>)
    modifies d
    ensures d.files == if written.Some? then old(d.files)[Sibling(path, zip) := written.value] else old(d.files)
    ensures d.archives == old(d.archives)
  {
    if written.Some? {
      d.Write(Sibling(path, zip), written.value);
    }
  }

  /** The Gzip-stream branch of `ECTGzip`: decompress to the `.ungz` sidecar, recompress it
      to `.ungz.gz`, keep that only when it is smaller than the input, and remove both
      sidecars. */
  method RewriteGzip(d: FileSystem, infile: string, o: GzOracle) returns (status: nat)
    modifies d
    ensures var refused := UngzName(infile) in old(d.files) || UngzName(infile) in d.dirs ||
                           UngzGzName(infile) in old(d.files) || UngzGzName(infile) in d.dirs || o.decompressed.None?;
      && status == (if refused then 2 else 0)
      && d.files == if !refused && o.compressed.Some? && o.compressed.value < SizeOf(old(d.files), infile)
                    then old(d.files)[infile := o.compressed.value] else old(d.files)
    ensures d.archives == old(d.archives)
  {
    var ungz, ungzgz := UngzName(infile), UngzGzName(infile);
    assert |ungz| > |infile| && |ungzgz| > |ungz|;
    if d.Exists(ungz) {
      return 2;
    }
    if d.Exists(ungzgz) {
      return 2;
    }
    // `ungz(Infile, Infile.ungz)` reports failure without writing
    if o.decompressed.None? {
      return 2;
    }
    ghost var before := d.files;
    d.Write(ungz, o.decompressed.value);
    assert Sibling(ungz, false) == ungzgz;
    ZopfliGzip(d, ungz, false, o.compressed);
    ghost var staged := before[ungz := o.decompressed.value];
    assert SizeOf(d.files, infile) == SizeOf(before, infile);
    if d.Size(ungzgz) < d.Size(infile) {
      d.RenameAndReplace(ungzgz, infile);
      if o.compressed.Some? {
        assert d.files == staged[infile := o.compressed.value];
      } else {
        assert d.files == staged;
      }
    } else {
      d.Unlink(ungzgz);
      assert d.files == staged;
    }
    d.Unlink(ungz);
    return 0;
  }

  /** `ECTGzip`, one file-system step at a time, in the order the program takes them. */
  method EctGzip(d: FileSystem, infile: string, fs: nat, zip: bool, strict: bool, o: GzOracle) returns (status: nat)
    modifies d
    ensures status == GzipSpec(old(d.files), d.dirs.Keys, infile, fs, zip, strict, o).status
    ensures d.files == GzipSpec(old(d.files), d.dirs.Keys, infile, fs, zip, strict, o).files
    ensures d.archives == old(d.archives)
  {
    if fs == 0 {
      return 2;
    }
    var isGZ := o.verdict;
    if isGZ == Unreadable {
      return 2;
    }
    if isGZ == Extra && strict {
      return 2;
    }
    if zip || isGZ == NotGzip {
      if d.Exists(Sibling(infile, zip)) {
        return 2;
      }
      ZopfliGzip(d, infile, zip, o.compressed);
      return 1;
    }
    status := RewriteGzip(d, infile, o);
  }
}
