/** A small stand-in for the `Option` type of the standard wrappers. */
module Wrappers {
  datatype Option<T> = None | Some(value: T)
}

/** The file system as the orchestrator sees it: regular files with their sizes, ZIP
    archives with their member names, and directories with their listings. The bytes of
    the files are not modelled; the operating-system helpers become the members below. */
module Disk {

  /** `filesize()`: the size of a regular file, and -1 for any other path. */
  function SizeOf(files: map<string, nat>, p: string): int {
    if p in files then files[p] else -1
  }

  /** A directory: its canonical path, its entries (`directory_iterator`) and every path
      below it in walk order (`recursive_directory_iterator`), all as full paths. */
  datatype Directory = Directory(canonical: string, children: seq<string>, tree: seq<string>)

  /** `archives[zip] + names`, the member list after appending `names` one by one. */
  function WithMembers(archives: map<string, seq<string>>, zip: string, names: seq<string>): map<string, seq<string>> {
    if names == [] then archives
    else archives[zip := (if zip in archives then archives[zip] else []) + names]
  }

  /** The parts of the file system the ZIP handler reads while it appends members, as they
      stand when its loop starts. The archive being written grows during the loop; that
      growth is not part of this view. */
  datatype View = View(files: map<string, nat>, dirs: map<string, Directory>, unreadable: set<string>,
                       zipLike: set<string>, refused: set<string>)

  /** Appending `names` and then `more` appends `names + more`. */
  lemma WithMembersAppend(archives: map<string, seq<string>>, zip: string, names: seq<string>, more: seq<string>)
    ensures WithMembers(WithMembers(archives, zip, names), zip, more) == WithMembers(archives, zip, names + more)
  {
    var base := if zip in archives then archives[zip] else [];
    assert base + names + more == base + (names + more);
    if names == [] {
      assert names + more == more;
    }
    if more == [] {
      assert names + more == names;
    }
  }

  class FileSystem {
    /** The regular files and their sizes in bytes. */
    var files: map<string, nat>
    /** The member names, in order, of each ZIP archive the model has written to. */
    var archives: map<string, seq<string>>
    /** The directories, keyed by the path spelling that names them. */
    const dirs: map<string, Directory>
    /** Files that cannot be opened or read in full (`fopen`/`fread` fail). */
    const unreadable: set<string>
    /** Paths whose contents the external `IsZIP` recognises as a ZIP archive. */
    const zipLike: set<string>
    /** Source paths the external archive writer fails to add as a member. */
    const refused: set<string>

    constructor (files: map<string, nat>, archives: map<string, seq<string>>, dirs: map<string, Directory>,
                 unreadable: set<string>, zipLike: set<string>, refused: set<string>)
      ensures this.files == files && this.archives == archives && this.dirs == dirs
      ensures this.unreadable == unreadable && this.zipLike == zipLike && this.refused == refused
    {
      this.files := files;
      this.archives := archives;
      this.dirs := dirs;
      this.unreadable := unreadable;
      this.zipLike := zipLike;
      this.refused := refused;
    }

    function Snapshot(): View
      reads this
    {
      View(files, dirs, unreadable, zipLike, refused)
    }

    function Size(p: string): int
      reads this
    {
      SizeOf(files, p)
    }

    /** `exists()`: `access(F_OK)` holds for directories as well as files. */
    predicate Exists(p: string)
      reads this
    {
      p in files || p in dirs
    }

    /** An external writer (a codec, a decompressor) leaves `p` holding `size` bytes. */
    method Write(p: string, size: nat)
      modifies this
      ensures files == old(files)[p := size] && archives == old(archives)
    {
      files := files[p := size];
    }

    /** `unlink(p)`. */
    method Unlink(p: string)
      modifies this
      ensures files == old(files) - {p} && archives == old(archives)
    {
      files := files - {p};
    }

    /** `RenameAndReplace(src, dst)`: `src` takes the place of `dst`, replacing it when it
        exists; when `src` is missing the rename fails and nothing changes. */
    method RenameAndReplace(src: string, dst: string)
      modifies this
      ensures files == if src in old(files) then (old(files) - {src})[dst := old(files)[src]] else old(files)
      ensures archives == old(archives)
    {
      if src in files {
        files := (files - {src})[dst := files[src]];
      }
    }

    /** `mz_zip_add_mem_to_archive_file_in_place`: appends one member to `zip`. */
    method AddMember(zip: string, name: string)
      modifies this
      ensures archives == WithMembers(old(archives), zip, [name]) && files == old(files)
    {
      archives := archives[zip := (if zip in archives then archives[zip] else []) + [name]];
    }

    /** The external `ReZipFile`: it rewrites an archive that exists, leaving it `size` bytes long. */
    method ReZip(zip: string, size: nat)
      modifies this
      ensures files == if zip in old(files) || zip in old(archives) then old(files)[zip := size] else old(files)
      ensures archives == old(archives)
    {
      if zip in files || zip in archives {
        files := files[zip := size];
      }
    }
  }
}
