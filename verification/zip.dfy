/** `zipHandler`: collect every input into one ZIP archive, named after the first input
    unless that input already is an archive, then recompress the archive once and account
    for it in the global counters. Paths use the POSIX separator. */
module Zip {
  import opened Wrappers
  import opened Disk
  import opened CStrings
  import opened Dispatch

  /** `UINT_MAX`: a file larger than this is skipped as too big. */
  const UintMax: nat := 0xFFFF_FFFF

  predicate IsZipExt(x: string) {
    x == "zip" || x == "ZIP"
  }

  /** The first input is the archive itself: a `.zip`/`.ZIP` name or contents `IsZIP`
      recognises, and not a directory. */
  predicate NamesArchive(v: View, arg0: string) {
    (IsZipExt(Extension(arg0)) || arg0 in v.zipLike) && arg0 !in v.dirs
  }

  /** `Name.find_last_of("/\\")`. */
  function LastSeparator(name: string): (p: Pos)
    ensures p.At? ==> p.index < |name|
  {
    FindLastOf(name, {'/', '\\'})
  }

  /** The archive name derived from the first input as the code builds it. For a regular
      file the extension is cut only when the last `.` lies after the last separator, a
      `size_t` comparison in which a missing separator (`npos`) is larger than every index;
      otherwise one trailing separator is dropped. */
  function DerivedNameAsWritten(arg0: string, isRegular: bool): string {
    var dot := FindLastOf(arg0, {'.'});
    if isRegular then
      (if PosGreater(dot, LastSeparator(arg0)) then SubstrBefore(arg0, dot) else arg0) + ".zip"
    else if |arg0| > 0 && (arg0[|arg0| - 1] == '/' || arg0[|arg0| - 1] == '\\') then arg0[..|arg0| - 1] + ".zip"
    else arg0 + ".zip"
  }

  /** A regular file named without any directory keeps its extension in the archive name:
      `data.txt` gives `data.txt.zip`, where `dir/data.txt` gives `dir/data.zip`. */
  lemma BareNameKeepsExtension()
    ensures DerivedNameAsWritten("data.txt", true) == "data.txt.zip"
    ensures DerivedNameAsWritten("dir/data.txt", true) == "dir/data.zip"
  {
    assert "data.txt"[7] == 't' && "data.txt"[4] == '.';
    assert FindLastOf("data.txt", {'.'}) == At(4);
    assert forall k :: 0 <= k < |"data.txt"| ==> "data.txt"[k] !in {'/', '\\'};
    assert "dir/data.txt"[8] == '.' && "dir/data.txt"[3] == '/';
    assert FindLastOf("dir/data.txt", {'.'}) == At(8);
    assert FindLastOf("dir/data.txt", {'/', '\\'}) == At(3);
    assert "dir/data.txt"[..8] == "dir/data";
  }

  /** The archive name derived from the first input: a regular file loses the extension
      of its base name (the text from the last `.` after the last separator), a path
      ending in a separator loses that separator, and `.zip` is appended. */
  function DerivedName(arg0: string, isRegular: bool): (z: string)
    ensures |z| >= 4 && z[|z| - 4..] == ".zip"
    ensures !isRegular ==> z == DerivedNameAsWritten(arg0, isRegular)
    ensures isRegular && '.' !in LooseMemberName(arg0) ==> z == arg0 + ".zip"
    ensures isRegular && '.' in LooseMemberName(arg0) ==>
      FindLastOf(arg0, {'.'}).At? && z == arg0[..FindLastOf(arg0, {'.'}).index] + ".zip"
  {
    var dot := FindLastOf(arg0, {'.'});
    var sep := LastSeparator(arg0);
    if isRegular then
      DotInBaseName(arg0);
      (if dot.At? && (sep.Npos? || dot.index > sep.index) then arg0[..dot.index] else arg0) + ".zip"
    else
      DerivedNameAsWritten(arg0, isRegular)
  }

  /** The base name holds a `.` exactly when the last `.` lies after the last separator,
      or there is no separator at all. */
  lemma DotInBaseName(arg0: string)
    ensures var dot := FindLastOf(arg0, {'.'});
            var sep := LastSeparator(arg0);
            '.' in LooseMemberName(arg0) <==> dot.At? && (sep.Npos? || dot.index > sep.index)
  {
    var dot := FindLastOf(arg0, {'.'});
    var sep := LastSeparator(arg0);
    var start := if sep.At? then sep.index + 1 else 0;
    var base := LooseMemberName(arg0);
    assert base == arg0[start..];
    if '.' in base {
      var k :| 0 <= k < |base| && base[k] == '.';
      assert arg0[start + k] in {'.'};
      assert dot.At? && dot.index >= start + k;
    }
    if dot.At? && (sep.Npos? || dot.index > sep.index) {
      assert dot.index >= start;
      assert base[dot.index - start] == arg0[dot.index];
    }
  }

  /** The code and the intended naming differ exactly for a regular file with a `.` in
      its name and no separator at all. */
  lemma DerivedNameDiffers(arg0: string)
    ensures DerivedNameAsWritten(arg0, true) != DerivedName(arg0, true) <==>
      '.' in arg0 && LastSeparator(arg0).Npos?
  {
    DotInBaseName(arg0);
    var dot := FindLastOf(arg0, {'.'});
    if '.' in arg0 {
      var k :| 0 <= k < |arg0| && arg0[k] == '.';
      assert dot.At?;
    }
    if dot.At? {
      assert |arg0[..dot.index]| < |arg0|;
      assert |arg0[..dot.index] + ".zip"| != |arg0 + ".zip"|;
    }
  }

  /** The name of a top-level file inside the archive: the text after its last separator. */
  function LooseMemberName(arg: string): (name: string)
    ensures '/' !in name && '\\' !in name
    ensures |name| <= |arg| && name == arg[|arg| - |name|..]
    // the longest such suffix: it starts right after a separator, or is the whole path
    ensures |name| == |arg| || arg[|arg| - |name| - 1] in {'/', '\\'}
  {
    SubstrAfter(arg, LastSeparator(arg))
  }

  /** `path(fold).parent_path()` for a canonical POSIX path: the text before the last
      separator, the root when that separator is the first character, and nothing when
      there is no separator. */
  function ParentPath(fold: string): (parent: string)
    ensures parent == "" || parent == "/" || |parent| < |fold|
    ensures parent == "" <==> '/' !in fold
    ensures parent != "" ==> |parent| <= |fold| && parent == fold[..|parent|]
    // the separator cut at is the last one
    ensures parent != "" ==>
      exists i :: (0 <= i < |fold| && fold[i] == '/' && '/' !in fold[i + 1..] &&
                   parent == (if i == 0 then "/" else fold[..i]))
  {
    match FindLastOf(fold, {'/'})
    case Npos => ""
    case At(i) => if i == 0 then "/" else fold[..i]
  }

  /** The number of leading characters the code erases from every path below a directory
      input: the parent's length plus one for the separator, even when the parent is the
      root `/`, which already ends in one. */
  function MemberPrefixAsWritten(fold: string): nat {
    var parent := ParentPath(fold);
    if parent == "" then 0 else |parent| + 1
  }

  /** `erase(0, n)`, for an `n` within the string. */
  function Erase(s: string, n: nat): string {
    if n <= |s| then s[n..] else ""
  }

  /** The last component of a directory path. */
  function BaseName(fold: string): string {
    SubstrAfter(fold, FindLastOf(fold, {'/'}))
  }

  /** Below a directory of the root the erase removes one character too many: the member
      for `/data/a.txt` is `ata/a.txt`, not `data/a.txt`. */
  lemma RootChildLosesFirstCharacter()
    ensures Erase("/data/a.txt", MemberPrefixAsWritten("/data")) == "ata/a.txt"
    ensures BaseName("/data") == "data"
  {
    assert "/data"[0] == '/' && "/data"[1..] == "data";
    assert FindLastOf("/data", {'/'}) == At(0);
  }

  /** The intended prefix: everything up to and including the separator that ends the
      parent path. */
  function MemberPrefix(fold: string): (n: nat)
    ensures n <= |fold|
    ensures var parent := ParentPath(fold);
      parent != "" && parent[|parent| - 1] != '/' ==> n == MemberPrefixAsWritten(fold)
  {
    var parent := ParentPath(fold);
    if parent == "" then 0
    else if parent[|parent| - 1] == '/' then |parent|
    else |parent| + 1
  }

  /** Every member name below a directory input starts with that directory's own name. */
  lemma MemberNameKeepsFolder(fold: string, rest: string)
    requires |fold| >= 2 && fold[0] == '/' && fold[|fold| - 1] != '/'
    requires forall k :: 0 < k < |fold| && fold[k] == '/' ==> fold[k - 1] != '/'
    ensures Erase(fold + "/" + rest, MemberPrefix(fold)) == BaseName(fold) + "/" + rest
  {
    var p := FindLastOf(fold, {'/'});
    assert fold[0] in {'/'};
    assert p.At?;
    var i := p.index;
    assert i < |fold| - 1;
    assert BaseName(fold) == fold[i + 1..];
    if i == 0 {
      assert MemberPrefix(fold) == 1;
    } else {
      assert ParentPath(fold) == fold[..i];
      assert fold[..i][i - 1] == fold[i - 1];
      assert fold[i - 1] != '/';
      assert MemberPrefix(fold) == i + 1;
    }
    assert (fold + "/" + rest)[MemberPrefix(fold)..] == fold[i + 1..] + "/" + rest;
  }

  /** `next` lies below `dir` in the walk: it starts with `dir + "/"`. */
  predicate Below(next: string, dir: string) {
    |next| >= |dir| + 1 && next[..|dir| + 1] == dir + "/"
  }

  /** The entry the code compares a directory entry with: `paths[j + 1]`, which for the
      last entry of the walk lies past the end of the vector (`None`). */
  function NextEntryAsWritten(paths: seq<string>, j: nat): Option<string>
    requires j < |paths|
  {
    if j + 1 < |paths| then Some(paths[j + 1]) else None
  }


  /** A directory entry is empty when the next entry of the walk is not below it; the last
      entry has no successor and is empty. */
  predicate IsEmptyDirEntry(paths: seq<string>, j: nat)
    requires j < |paths|
  {
    j + 1 == |paths| || !Below(paths[j + 1], paths[j])
  }

  /** Wherever the code's read stays inside the walk, it agrees with the corrected test. */
  lemma EmptyDirEntryAgrees(paths: seq<string>, j: nat)
    requires j < |paths|
    ensures NextEntryAsWritten(paths, j).Some? ==> (IsEmptyDirEntry(paths, j) <==> !Below(NextEntryAsWritten(paths, j).value, paths[j]))
    ensures NextEntryAsWritten(paths, j).None? ==> IsEmptyDirEntry(paths, j)
  {
  }

  /** The work accumulated by the member loop: the error flag, `local_bytes`, and the
      member names appended to the archive, in order. */
  datatype Acc = Acc(error: nat, bytes: nat, members: seq<string>)

  /** What happens to one file: skipped (too big, or not a regular file), failed (cannot
      be read, or the archive writer refuses it), or added with its size. */
  datatype FileStep = Skipped | Failed | Added(size: nat)

  function FileStepOf(v: View, p: string): (s: FileStep)
    ensures s.Added? ==> p in v.files && s.size == v.files[p] <= UintMax && p !in v.unreadable && p !in v.refused
    ensures s.Failed? <==> p in v.files && v.files[p] <= UintMax && (p in v.unreadable || p in v.refused)
    ensures p in v.files && v.files[p] <= UintMax && p !in v.unreadable && p !in v.refused ==> s == Added(v.files[p])
  {
    var f := SizeOf(v.files, p);
    if f > UintMax || f < 0 then Skipped
    else if p in v.unreadable || p in v.refused then Failed
    else Added(f)
  }

  function ApplyFile(acc: Acc, s: FileStep, name: string): Acc {
    match s
    case Skipped => acc
    case Failed => acc.(error := 1)
    case Added(f) => Acc(acc.error, acc.bytes + f, acc.members + [name])
  }

  /** One entry of a directory walk: an empty directory is added as `name/` (a refusal is
      only reported), a file as `name`. */
  function AddEntry(v: View, paths: seq<string>, j: nat, prefix: nat, acc: Acc): Acc
    requires j < |paths|
  {
    var p := paths[j];
    var name := Erase(p, prefix);
    if p in v.dirs then
      if IsEmptyDirEntry(paths, j) && p !in v.refused then acc.(members := acc.members + [name + "/"]) else acc
    else ApplyFile(acc, FileStepOf(v, p), name)
  }

  /** In every walk that ends in a directory, the code reads `paths[j + 1]` past the end
      of the vector for that last entry; the corrected test counts the entry as empty and
      adds it as `name/` unless the archive writer refuses it. */
  lemma TrailingDirectoryReadsPastEnd(v: View, paths: seq<string>, prefix: nat, acc: Acc)
    requires |paths| > 0 && paths[|paths| - 1] in v.dirs
    ensures NextEntryAsWritten(paths, |paths| - 1).None?
    ensures IsEmptyDirEntry(paths, |paths| - 1)
    ensures paths[|paths| - 1] !in v.refused ==>
      AddEntry(v, paths, |paths| - 1, prefix, acc) == acc.(members := acc.members + [Erase(paths[|paths| - 1], prefix) + "/"])
  {
  }

  /** The walk of one directory input, from entry `j` on. An error does not stop it. */
  function AddTree(v: View, paths: seq<string>, j: nat, prefix: nat, acc: Acc): (r: Acc)
    requires j <= |paths|
    ensures acc.error <= 1 ==> r.error <= 1
    decreases |paths| - j
  {
    if j == |paths| then acc else AddTree(v, paths, j + 1, prefix, AddEntry(v, paths, j, prefix, acc))
  }

  /** One input: a directory is walked (an empty one becomes a single `name/` member); any
      other path is added as a file under its base name. */
  function AddInput(v: View, arg: string, acc: Acc): Acc {
    if arg in v.dirs then
      var dir := v.dirs[arg];
      var prefix := MemberPrefix(dir.canonical);
      if dir.tree == [] then
        if arg !in v.refused then acc.(members := acc.members + [Erase(dir.canonical, prefix) + "/"]) else acc
      else AddTree(v, dir.tree, 0, prefix, acc)
    else ApplyFile(acc, FileStepOf(v, arg), LooseMemberName(arg))
  }

  /** The outer loop over the inputs from `i` on; it stops after the first input that
      sets the error. */
  function AddInputs(v: View, args: seq<string>, i: nat, acc: Acc): (r: Acc)
    requires i <= |args|
    ensures acc.error <= 1 ==> r.error <= 1
    decreases |args| - i
  {
    if i == |args| || acc.error != 0 then acc else AddInputs(v, args, i + 1, AddInput(v, args[i], acc))
  }

  /** A file that fails: it exists, is not too big, and cannot be read or added. */
  predicate FileFails(v: View, p: string) {
    FileStepOf(v, p).Failed?
  }

  /** An input that fails: a failing file, or a directory with a failing file in its walk. */
  predicate InputFails(v: View, arg: string) {
    if arg in v.dirs then
      exists k :: 0 <= k < |v.dirs[arg].tree| && v.dirs[arg].tree[k] !in v.dirs && FileFails(v, v.dirs[arg].tree[k])
    else FileFails(v, arg)
  }

  lemma {:induction false} AddTreeError(v: View, paths: seq<string>, j: nat, prefix: nat, acc: Acc)
    requires j <= |paths|
    ensures AddTree(v, paths, j, prefix, acc).error == 0 <==>
      acc.error == 0 && forall k :: j <= k < |paths| ==> paths[k] in v.dirs || !FileFails(v, paths[k])
    decreases |paths| - j
  {
    if j < |paths| {
      AddTreeError(v, paths, j + 1, prefix, AddEntry(v, paths, j, prefix, acc));
    }
  }

  /** An input sets the error exactly when one of its files fails. */
  lemma AddInputError(v: View, arg: string, acc: Acc)
    ensures AddInput(v, arg, acc).error == 0 <==> acc.error == 0 && !InputFails(v, arg)
  {
    if arg in v.dirs && v.dirs[arg].tree != [] {
      AddTreeError(v, v.dirs[arg].tree, 0, MemberPrefix(v.dirs[arg].canonical), acc);
    }
  }

  /** The member loop ends without error exactly when no input fails. */
  lemma {:induction false} AddInputsError(v: View, args: seq<string>, i: nat, acc: Acc)
    requires i <= |args|
    ensures AddInputs(v, args, i, acc).error == 0 <==>
      acc.error == 0 && forall k :: i <= k < |args| ==> !InputFails(v, args[k])
    decreases |args| - i
  {
    if i < |args| && acc.error == 0 {
      var next := AddInput(v, args[i], acc);
      assert AddInputs(v, args, i, acc) == AddInputs(v, args, i + 1, next);
      AddInputError(v, args[i], acc);
      AddInputsError(v, args, i + 1, next);
    }
  }

  /** The sum of the sizes of the files a walk adds, from entry `j` on. */
  function TreeBytes(v: View, paths: seq<string>, j: nat): nat
    requires j <= |paths|
    decreases |paths| - j
  {
    if j == |paths| then 0
    else (if paths[j] !in v.dirs && FileStepOf(v, paths[j]).Added? then FileStepOf(v, paths[j]).size else 0)
         + TreeBytes(v, paths, j + 1)
  }

  /** `local_bytes` grows by exactly the sizes of the files a walk adds. */
  lemma {:induction false} AddTreeBytes(v: View, paths: seq<string>, j: nat, prefix: nat, acc: Acc)
    requires j <= |paths|
    ensures AddTree(v, paths, j, prefix, acc).bytes == acc.bytes + TreeBytes(v, paths, j)
    decreases |paths| - j
  {
    if j < |paths| {
      AddTreeBytes(v, paths, j + 1, prefix, AddEntry(v, paths, j, prefix, acc));
    }
  }

  /** The number of members a walk appends never exceeds its length, and members are
      only ever appended. */
  lemma {:induction false} AddTreeAppends(v: View, paths: seq<string>, j: nat, prefix: nat, acc: Acc)
    requires j <= |paths|
    ensures var r := AddTree(v, paths, j, prefix, acc);
      |acc.members| <= |r.members| <= |acc.members| + |paths| - j && r.members[..|acc.members|] == acc.members
    decreases |paths| - j
  {
    if j < |paths| {
      var next := AddEntry(v, paths, j, prefix, acc);
      AddTreeAppends(v, paths, j + 1, prefix, next);
      assert next.members[..|acc.members|] == acc.members;
    }
  }

  /** The members a walk contributes from entry `j` on: each file that can be added, under
      its path less the prefix, and each empty directory the archive writer accepts,
      under that name followed by `/`. */
  function TreeMembers(v: View, paths: seq<string>, j: nat, prefix: nat): seq<string>
    requires j <= |paths|
    decreases |paths| - j
  {
    if j == |paths| then [] else EntryMembers(v, paths, j, prefix) + TreeMembers(v, paths, j + 1, prefix)
  }

  /** The member entry `j` of a walk contributes: `name/` for an empty directory the
      writer accepts, `name` for a file that is added, and nothing otherwise. */
  function EntryMembers(v: View, paths: seq<string>, j: nat, prefix: nat): seq<string>
    requires j < |paths|
  {
    var p := paths[j];
    if p in v.dirs then (if IsEmptyDirEntry(paths, j) && p !in v.refused then [Erase(p, prefix) + "/"] else [])
    else if FileStepOf(v, p).Added? then [Erase(p, prefix)] else []
  }

  /** `(a + b) + c == a + (b + c)`, for the appends of the member lists. */
  lemma AppendAssoc(a: seq<string>, b: seq<string>, c: seq<string>)
    ensures a + b + c == a + (b + c)
  {
  }

  /** The members one input contributes: its walk, a single `name/` for an empty directory,
      or a loose file under its base name. */
  function InputMembers(v: View, arg: string): seq<string> {
    if arg in v.dirs then
      var dir := v.dirs[arg];
      var prefix := MemberPrefix(dir.canonical);
      if dir.tree == [] then (if arg !in v.refused then [Erase(dir.canonical, prefix) + "/"] else [])
      else TreeMembers(v, dir.tree, 0, prefix)
    else if FileStepOf(v, arg).Added? then [LooseMemberName(arg)]
    else []
  }

  /** The bytes one input adds to `local_bytes`. */
  function InputBytes(v: View, arg: string): nat {
    if arg in v.dirs then TreeBytes(v, v.dirs[arg].tree, 0)
    else if FileStepOf(v, arg).Added? then FileStepOf(v, arg).size
    else 0
  }

  /** The members of the inputs from `i` on, up to and including the first input that fails. */
  function InputsMembers(v: View, args: seq<string>, i: nat): seq<string>
    requires i <= |args|
    decreases |args| - i
  {
    if i == |args| then []
    else InputMembers(v, args[i]) + (if InputFails(v, args[i]) then [] else InputsMembers(v, args, i + 1))
  }

  /** The bytes of the inputs from `i` on, up to and including the first input that fails. */
  function InputsBytes(v: View, args: seq<string>, i: nat): nat
    requires i <= |args|
    decreases |args| - i
  {
    if i == |args| then 0
    else InputBytes(v, args[i]) + (if InputFails(v, args[i]) then 0 else InputsBytes(v, args, i + 1))
  }

  /** A walk appends exactly the members of `TreeMembers`, whatever errors occur. */
  lemma {:induction false} AddTreeMembers(v: View, paths: seq<string>, j: nat, prefix: nat, acc: Acc)
    requires j <= |paths|
    ensures AddTree(v, paths, j, prefix, acc).members == acc.members + TreeMembers(v, paths, j, prefix)
    decreases |paths| - j
  {
    if j == |paths| {
      assert acc.members + [] == acc.members;
    } else {
      var next := AddEntry(v, paths, j, prefix, acc);
      assert next.members == acc.members + EntryMembers(v, paths, j, prefix);
      AddTreeMembers(v, paths, j + 1, prefix, next);
      assert AddTree(v, paths, j, prefix, acc) == AddTree(v, paths, j + 1, prefix, next);
      AppendAssoc(acc.members, EntryMembers(v, paths, j, prefix), TreeMembers(v, paths, j + 1, prefix));
    }
  }

  /** One input appends the members of `InputMembers` and adds `InputBytes`. */
  lemma AddInputMembers(v: View, arg: string, acc: Acc)
    ensures AddInput(v, arg, acc).members == acc.members + InputMembers(v, arg)
    ensures AddInput(v, arg, acc).bytes == acc.bytes + InputBytes(v, arg)
  {
    if arg in v.dirs {
      var dir := v.dirs[arg];
      var prefix := MemberPrefix(dir.canonical);
      if dir.tree != [] {
        AddTreeMembers(v, dir.tree, 0, prefix, acc);
        AddTreeBytes(v, dir.tree, 0, prefix, acc);
      }
    } else if !FileStepOf(v, arg).Added? {
      assert acc.members + [] == acc.members;
    }
  }

  /** The member loop appends, input by input, the members of every input up to and
      including the first that fails. */
  lemma {:induction false} AddInputsMembers(v: View, args: seq<string>, i: nat, acc: Acc)
    requires i <= |args| && acc.error == 0
    ensures AddInputs(v, args, i, acc).members == acc.members + InputsMembers(v, args, i)
    decreases |args| - i
  {
    if i == |args| {
      assert acc.members + [] == acc.members;
    } else {
      var next := AddInput(v, args[i], acc);
      AddInputMembers(v, args[i], acc);
      AddInputError(v, args[i], acc);
      assert AddInputs(v, args, i, acc) == AddInputs(v, args, i + 1, next);
      if InputFails(v, args[i]) {
        assert AddInputs(v, args, i + 1, next) == next;
        assert InputsMembers(v, args, i) == InputMembers(v, args[i]) + [];
      } else {
        AddInputsMembers(v, args, i + 1, next);
        assert InputsMembers(v, args, i) == InputMembers(v, args[i]) + InputsMembers(v, args, i + 1);
        AppendAssoc(acc.members, InputMembers(v, args[i]), InputsMembers(v, args, i + 1));
      }
    }
  }

  /** The member loop adds to `local_bytes` the bytes of every input up to and including
      the first that fails. */
  lemma {:induction false} AddInputsBytes(v: View, args: seq<string>, i: nat, acc: Acc)
    requires i <= |args| && acc.error == 0
    ensures AddInputs(v, args, i, acc).bytes == acc.bytes + InputsBytes(v, args, i)
    decreases |args| - i
  {
    if i < |args| {
      var next := AddInput(v, args[i], acc);
      AddInputMembers(v, args[i], acc);
      AddInputError(v, args[i], acc);
      assert AddInputs(v, args, i, acc) == AddInputs(v, args, i + 1, next);
      if InputFails(v, args[i]) {
        assert AddInputs(v, args, i + 1, next) == next;
      } else {
        AddInputsBytes(v, args, i + 1, next);
      }
    }
  }

  /** What `ReZipFile` reports: the files it processed and the archive's size afterwards. */
  datatype ReZipOracle = ReZipOracle(count: nat, size: nat)

  /** The error `zipHandler` returns, the files and archives afterwards, and the counters. */
  datatype ZipResult = ZipResult(error: nat, files: map<string, nat>, archives: map<string, seq<string>>, tally: Tally)

  /** Where the loop starts: the archive, the first input to add, and the initial
      `local_bytes`, or `None` when a derived archive name is already taken. */
  datatype Start = Start(zip: string, first: nat, bytes: nat)

  function StartOf(v: View, arg0: string): Option<Start> {
    if NamesArchive(v, arg0) then
      Some(Start(arg0, 1, if arg0 in v.files then v.files[arg0] else 0))
    else
      var zip := DerivedName(arg0, arg0 in v.files && arg0 !in v.dirs);
      if zip in v.files || zip in v.dirs then None else Some(Start(zip, 0, 0))
  }

  /** `zipHandler(args, argv, files, Options)`, from the file system and counters before it. */
  function ZipSpec(v: View, archives: map<string, seq<string>>, args: seq<string>, rz: ReZipOracle, t: Tally): (r: ZipResult)
    requires |args| >= 1
    ensures r.error <= 1
    // a derived archive name that is already taken is an error, and nothing happens
    ensures StartOf(v, args[0]).None? ==> r == ZipResult(1, v.files, archives, t)
  {
    match StartOf(v, args[0])
    case None => ZipResult(1, v.files, archives, t)
    case Some(s) => Conclude(v, archives, s.zip, AddInputs(v, args, s.first, Acc(0, s.bytes, [])), rz, t)
  }

  /** The end of `zipHandler` once the member loop produced `acc`: the members are
      appended to the archive, `ReZipFile` rewrites it, and the counters are updated. */
  function Conclude(v: View, archives: map<string, seq<string>>, zip: string, acc: Acc, rz: ReZipOracle, t: Tally): ZipResult {
    var archives' := WithMembers(archives, zip, acc.members);
    var files' := if zip in v.files || zip in archives' then v.files[zip := rz.size] else v.files;
    ZipResult(acc.error, files', archives', Tally(t.processed + rz.count, t.bytes + acc.bytes, t.savings + (acc.bytes - SizeOf(files', zip))))
  }

  /** Only the archive itself changes among the files and the archives: the members are
      appended to its list, the error is the member loop's, the processed count grows by
      what `ReZipFile` processed, the byte count by `local_bytes`, and the savings by
      `local_bytes` less the archive's final size. */
  lemma ConcludeEffect(v: View, archives: map<string, seq<string>>, zip: string, acc: Acc, rz: ReZipOracle, t: Tally)
    ensures var r := Conclude(v, archives, zip, acc, rz, t);
      && (forall p :: p != zip ==> (p in r.files <==> p in v.files) && (p in v.files ==> r.files[p] == v.files[p]))
      && (forall a :: a != zip ==> (a in r.archives <==> a in archives) && (a in archives ==> r.archives[a] == archives[a]))
      && (acc.members == [] ==> r.archives == archives)
      && (acc.members != [] ==>
            zip in r.archives && r.archives[zip] == (if zip in archives then archives[zip] else []) + acc.members)
      && r.error == acc.error
      && r.tally == Tally(t.processed + rz.count, t.bytes + acc.bytes, t.savings + (acc.bytes - SizeOf(r.files, zip)))
  {
  }

  /** The archive is written exactly when no input fails, once its name is free. */
  lemma ZipErrorIffSomeInputFails(v: View, archives: map<string, seq<string>>, args: seq<string>, rz: ReZipOracle, t: Tally)
    requires |args| >= 1 && StartOf(v, args[0]).Some?
    ensures ZipSpec(v, archives, args, rz, t).error == 0 <==>
      forall k :: StartOf(v, args[0]).value.first <= k < |args| ==> !InputFails(v, args[k])
  {
    var s := StartOf(v, args[0]).value;
    AddInputsError(v, args, s.first, Acc(0, s.bytes, []));
  }

  /** Once its name is free, the archive receives exactly the members of the inputs up to
      the first that fails, in input order. */
  lemma ZipMembers(v: View, archives: map<string, seq<string>>, args: seq<string>, rz: ReZipOracle, t: Tally)
    requires |args| >= 1 && StartOf(v, args[0]).Some?
    ensures var s := StartOf(v, args[0]).value;
      var r := ZipSpec(v, archives, args, rz, t);
      var names := InputsMembers(v, args, s.first);
      && (names == [] ==> r.archives == archives)
      && (names != [] ==> s.zip in r.archives && r.archives[s.zip] == (if s.zip in archives then archives[s.zip] else []) + names)
  {
    var s := StartOf(v, args[0]).value;
    var names := InputsMembers(v, args, s.first);
    var acc := AddInputs(v, args, s.first, Acc(0, s.bytes, []));
    AddInputsMembers(v, args, s.first, Acc(0, s.bytes, []));
    assert [] + names == names;
    assert acc.members == names;
    assert ZipSpec(v, archives, args, rz, t) == Conclude(v, archives, s.zip, acc, rz, t);
    ConcludeEffect(v, archives, s.zip, acc, rz, t);
  }

  /** Once its name is free, the counters grow by the files `ReZipFile` processed, by
      `local_bytes` (the bytes of the inputs up to the first that fails), and by
      `local_bytes` less the archive's final size. */
  lemma ZipTally(v: View, archives: map<string, seq<string>>, args: seq<string>, rz: ReZipOracle, t: Tally)
    requires |args| >= 1 && StartOf(v, args[0]).Some?
    ensures var s := StartOf(v, args[0]).value;
      var r := ZipSpec(v, archives, args, rz, t);
      var local := s.bytes + InputsBytes(v, args, s.first);
      r.tally.processed == t.processed + rz.count && r.tally.bytes == t.bytes + local
      && r.tally.savings == t.savings + (local - SizeOf(r.files, s.zip))
  {
    var s := StartOf(v, args[0]).value;
    var acc := AddInputs(v, args, s.first, Acc(0, s.bytes, []));
    var r := Conclude(v, archives, s.zip, acc, rz, t);
    assert ZipSpec(v, archives, args, rz, t) == r;
    assert acc.bytes == s.bytes + InputsBytes(v, args, s.first) by {
      AddInputsBytes(v, args, s.first, Acc(0, s.bytes, []));
    }
    assert r.tally.savings == t.savings + (acc.bytes - SizeOf(r.files, s.zip)) by {
      ConcludeEffect(v, archives, s.zip, acc, rz, t);
    }
  }

  /** One file, added to the archive unless it is skipped or fails. */
  method AddFile(d: FileSystem, zip: string, p: string, name: string) returns (s: FileStep)
    modifies d
    ensures s == FileStepOf(old(d.Snapshot()), p)
    ensures d.files == old(d.files)
    ensures d.archives == if s.Added? then WithMembers(old(d.archives), zip, [name]) else old(d.archives)
  {
    var f := d.Size(p);
    if f > UintMax {
      return Skipped;
    }
    if f < 0 {
      return Skipped;
    }
    if p in d.unreadable {
      return Failed;
    }
    if p in d.refused {
      return Failed;
    }
    d.AddMember(zip, name);
    return Added(d.Size(p) as nat);
  }

  /** One entry of a walk, with the members appended so far since `archives0` kept in `added`. */
  method AddWalkEntry(d: FileSystem, zip: string, paths: seq<string>, j: nat, prefix: nat, acc: Acc,
                      ghost archives0: map<string, seq<string>>, ghost base: seq<string>, ghost added: seq<string>)
    returns (next: Acc, ghost added': seq<string>)
    requires j < |paths|
    requires acc.members == base + added && d.archives == WithMembers(archives0, zip, added)
    modifies d
    ensures next == AddEntry(old(d.Snapshot()), paths, j, prefix, acc)
    ensures d.files == old(d.files) && d.Snapshot() == old(d.Snapshot())
    ensures next.members == base + added' && d.archives == WithMembers(archives0, zip, added')
  {
    var p := paths[j];
    var name := Erase(p, prefix);
    next, added' := acc, added;
    if p in d.dirs {
      if IsEmptyDirEntry(paths, j) && p !in d.refused {
        d.AddMember(zip, name + "/");
        WithMembersAppend(archives0, zip, added, [name + "/"]);
        next := acc.(members := acc.members + [name + "/"]);
        added' := added + [name + "/"];
      }
    } else {
      var s := AddFile(d, zip, p, name);
      if s.Added? {
        WithMembersAppend(archives0, zip, added, [name]);
        added' := added + [name];
      }
      next := ApplyFile(acc, s, name);
    }
  }

  /** The walk of one directory input, entry by entry. */
  method AddDirectory(d: FileSystem, zip: string, paths: seq<string>, prefix: nat, acc0: Acc) returns (acc: Acc)
    modifies d
    ensures acc == AddTree(old(d.Snapshot()), paths, 0, prefix, acc0)
    ensures d.files == old(d.files) && d.Snapshot() == old(d.Snapshot())
    ensures |acc0.members| <= |acc.members| && acc.members[..|acc0.members|] == acc0.members
    ensures d.archives == WithMembers(old(d.archives), zip, acc.members[|acc0.members|..])
  {
    ghost var v := d.Snapshot();
    ghost var archives0 := d.archives;
    ghost var added: seq<string> := [];
    acc := acc0;
    var j := 0;
    while j < |paths|
      invariant j <= |paths|
      invariant d.Snapshot() == v && d.files == old(d.files)
      invariant AddTree(v, paths, 0, prefix, acc0) == AddTree(v, paths, j, prefix, acc)
      invariant acc.members == acc0.members + added
      invariant d.archives == WithMembers(archives0, zip, added)
    {
      acc, added := AddWalkEntry(d, zip, paths, j, prefix, acc, archives0, acc0.members, added);
      j := j + 1;
    }
    assert acc.members[..|acc0.members|] == acc0.members;
    assert acc.members[|acc0.members|..] == added;
  }

  /** One input of the outer loop: a directory walked entry by entry, an empty directory
      added as one entry, or a file added under its base name. */
  method AddOneInput(d: FileSystem, zip: string, arg: string, acc0: Acc) returns (acc: Acc)
    modifies d
    ensures acc == AddInput(old(d.Snapshot()), arg, acc0)
    ensures d.files == old(d.files) && d.Snapshot() == old(d.Snapshot())
    ensures |acc0.members| <= |acc.members| && acc.members[..|acc0.members|] == acc0.members
    ensures d.archives == WithMembers(old(d.archives), zip, acc.members[|acc0.members|..])
  {
    acc := acc0;
    if arg in d.dirs {
      var dir := d.dirs[arg];
      var prefix := MemberPrefix(dir.canonical);
      if |dir.tree| == 0 {
        if arg !in d.refused {
          var name := Erase(dir.canonical, prefix) + "/";
          d.AddMember(zip, name);
          acc := acc.(members := acc.members + [name]);
          assert acc.members[|acc0.members|..] == [name];
        } else {
          assert acc.members[|acc0.members|..] == [];
        }
      } else {
        acc := AddDirectory(d, zip, dir.tree, prefix, acc);
      }
    } else {
      var name := LooseMemberName(arg);
      var s := AddFile(d, zip, arg, name);
      acc := ApplyFile(acc, s, name);
      if s.Added? {
        assert acc.members[|acc0.members|..] == [name];
      } else {
        assert acc.members[|acc0.members|..] == [];
      }
    }
  }

  /** The opening of `zipHandler`: the first input is the archive and is skipped by the
      member loop, its size counted when it exists; or the archive is named after it,
      which fails when that name is taken. */
  method ArchiveStart(d: FileSystem, arg0: string) returns (start: Option<Start>)
    ensures start == StartOf(d.Snapshot(), arg0)
  {
    if (IsZipExt(Extension(arg0)) || arg0 in d.zipLike) && arg0 !in d.dirs {
      var localBytes: nat := 0;
      if d.Exists(arg0) {
        localBytes := localBytes + d.Size(arg0) as nat;
      }
      return Some(Start(arg0, 1, localBytes));
    }
    var zip := DerivedName(arg0, arg0 in d.files && arg0 !in d.dirs);
    if d.Exists(zip) {
      return None;
    }
    return Some(Start(zip, 0, 0));
  }

  /** One more input, with the members appended so far since `archives0` kept in `added`. */
  method AddNext(d: FileSystem, zip: string, arg: string, acc: Acc, ghost archives0: map<string, seq<string>>,
                 ghost base: seq<string>, ghost added: seq<string>) returns (next: Acc, ghost added': seq<string>)
    requires acc.members == base + added && d.archives == WithMembers(archives0, zip, added)
    modifies d
    ensures next == AddInput(old(d.Snapshot()), arg, acc)
    ensures d.files == old(d.files) && d.Snapshot() == old(d.Snapshot())
    ensures next.members == base + added' && d.archives == WithMembers(archives0, zip, added')
  {
    next := AddOneInput(d, zip, arg, acc);
    ghost var more := next.members[|acc.members|..];
    assert next.members == acc.members + more;
    WithMembersAppend(archives0, zip, added, more);
    added' := added + more;
  }

  /** The member loop of `zipHandler`: each input in turn until one sets the error. */
  method AddAllInputs(d: FileSystem, zip: string, args: seq<string>, first: nat, acc0: Acc) returns (acc: Acc)
    requires first <= |args|
    modifies d
    ensures acc == AddInputs(old(d.Snapshot()), args, first, acc0)
    ensures d.files == old(d.files) && d.Snapshot() == old(d.Snapshot())
    ensures |acc0.members| <= |acc.members| && acc.members[..|acc0.members|] == acc0.members
    ensures d.archives == WithMembers(old(d.archives), zip, acc.members[|acc0.members|..])
  {
    ghost var v := d.Snapshot();
    ghost var archives0 := d.archives;
    ghost var added: seq<string> := [];
    acc := acc0;
    var i := first;
    while acc.error == 0 && i < |args|
      invariant first <= i <= |args|
      invariant d.Snapshot() == v && d.files == old(d.files)
      invariant AddInputs(v, args, first, acc0) == AddInputs(v, args, i, acc)
      invariant acc.members == acc0.members + added
      invariant d.archives == WithMembers(archives0, zip, added)
    {
      acc, added := AddNext(d, zip, args[i], acc, archives0, acc0.members, added);
      i := i + 1;
    }
    assert acc.members[..|acc0.members|] == acc0.members;
    assert acc.members[|acc0.members|..] == added;
  }

  /** `zipHandler`, input by input, appending members in place and then updating the
      counters. `args` are the inputs' `argv` strings; `main` calls it only when there is
      at least one. */
  method ZipHandler(d: FileSystem, c: Counters, args: seq<string>, rz: ReZipOracle) returns (error: nat)
    requires |args| >= 1
    modifies d, c
    ensures var r := ZipSpec(old(d.Snapshot()), old(d.archives), args, rz, old(c.Value()));
      error == r.error && d.files == r.files && d.archives == r.archives && c.Value() == r.tally
  {
    var start := ArchiveStart(d, args[0]);
    if start.None? {
      return 1;
    }
    var zip := start.value.zip;
    var acc := AddAllInputs(d, zip, args, start.value.first, Acc(0, start.value.bytes, []));
    assert acc.members[0..] == acc.members;
    error := acc.error;
    d.ReZip(zip, rz.size);
    c.Add(rz.count, acc.bytes, acc.bytes - d.Size(zip));
  }
}
