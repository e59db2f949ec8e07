/** The body of `main` after the arguments: the ZIP path, or the expansion of the inputs
    into a file list processed one file at a time or by a pool of workers that share one
    cursor; the exit code is the OR of every handler's result. */
module Driver {
  import opened Disk
  import opened Args
  import opened Dispatch
  import opened Zip
  import opened Report
  import opened Codecs
  import opened Gzip

  /** `error |= e` over the handler results, in order. */
  function OrFold(errs: seq<bv32>): bv32 {
    if errs == [] then 0 else OrFold(errs[..|errs| - 1]) | errs[|errs| - 1]
  }

  lemma {:induction false} OrFoldAppend(a: seq<bv32>, b: seq<bv32>)
    ensures OrFold(a + b) == OrFold(a) | OrFold(b)
    decreases |b|
  {
    if b == [] {
      assert a + b == a;
    } else {
      var b' := b[..|b| - 1];
      assert (a + b)[..|a + b| - 1] == a + b';
      OrFoldAppend(a, b');
    }
  }

  /** The exit code is 0 exactly when every handler returned 0. */
  lemma {:induction false} OrFoldZero(errs: seq<bv32>)
    ensures OrFold(errs) == 0 <==> forall k :: 0 <= k < |errs| ==> errs[k] == 0
  {
    if errs != [] {
      var init := errs[..|errs| - 1];
      OrFoldZero(init);
      assert forall k :: 0 <= k < |init| ==> init[k] == errs[k];
    }
  }

  lemma OrFoldSingle(x: bv32)
    ensures OrFold([x]) == x
  {
    assert [x][..0] == [];
  }

  /** Taking one result out of the sequence and OR-ing it back in changes nothing. */
  lemma OrFoldRemove(b: seq<bv32>, j: nat)
    requires j < |b|
    ensures OrFold(b) == OrFold(b[..j] + b[j + 1..]) | b[j]
  {
    var left, x, right := b[..j], b[j], b[j + 1..];
    assert b == (left + [x]) + right;
    OrFoldAppend(left + [x], right);
    OrFoldAppend(left, [x]);
    OrFoldAppend(left, right);
    OrFoldSingle(x);
    var l, r := OrFold(left), OrFold(right);
    assert (l | x) | r == (l | r) | x;
  }

  /** A result already among the others adds nothing to their OR. */
  lemma OrFoldMember(b: seq<bv32>, x: bv32)
    requires x in b
    ensures OrFold(b) | x == OrFold(b)
  {
    var j :| 0 <= j < |b| && b[j] == x;
    OrFoldRemove(b, j);
  }

  lemma {:induction false} OrFoldAbsorbs(a: seq<bv32>, b: seq<bv32>)
    requires forall k :: 0 <= k < |a| ==> a[k] in b
    ensures OrFold(a) | OrFold(b) == OrFold(b)
    decreases |a|
  {
    if a != [] {
      var a', x := a[..|a| - 1], a[|a| - 1];
      assert forall k :: 0 <= k < |a'| ==> a'[k] == a[k];
      OrFoldAbsorbs(a', b);
      OrFoldMember(b, x);
      var fa, fb := OrFold(a'), OrFold(b);
      assert (fa | x) | fb == (fa | fb) | x;
    }
  }

  /** The OR depends only on which results occur, not on their order or repetition, so
      workers finishing in any order leave the same exit code. */
  lemma OrFoldOrderFree(a: seq<bv32>, b: seq<bv32>)
    requires forall k :: 0 <= k < |a| ==> a[k] in b
    requires forall k :: 0 <= k < |b| ==> b[k] in a
    ensures OrFold(a) == OrFold(b)
  {
    OrFoldAbsorbs(a, b);
    OrFoldAbsorbs(b, a);
    var fa, fb := OrFold(a), OrFold(b);
    assert fa | fb == fb | fa;
  }

  /** The files, the counters and every handler result so far. */
  datatype RunState = RunState(files: map<string, nat>, tally: Tally, errors: seq<bv32>)

  /** A handler result of 0 or 1 keeps its value as an unsigned exit-code word. */
  lemma ErrorBit(e: nat)
    requires e <= 1
    ensures e as bv32 <= 1 && (e as bv32) as int == e
  {
    if e == 0 {
      assert (0 as bv32) as int == 0;
    } else {
      assert (1 as bv32) as int == 1;
    }
  }

  /** A handler result as the `unsigned` word it is OR-ed into. */
  function Word(e: nat): bv32 {
    (e % 0x1_0000_0000) as bv32
  }

  lemma WordBit(e: nat)
    requires e <= 1
    ensures Word(e) <= 1
  {
    if e == 0 {
      assert Word(e) == 0;
    } else {
      assert Word(e) == 1;
    }
  }

  /** `n` turns of a handler `h`: turn `k` hands `h` the files and counters left by the
      turns before it, and records its result. */
  function Fold(h: (map<string, nat>, Tally, nat) -> Handled, s0: RunState, n: nat): (s: RunState)
    ensures |s.errors| == |s0.errors| + n
  {
    if n == 0 then s0
    else
      var s := Fold(h, s0, n - 1);
      var r := h(s.files, s.tally, n - 1);
      RunState(r.files, r.tally, s.errors + [Word(r.error)])
  }

  /** When every result of `h` is 0 or 1, so is every result the turns record, after the
      results that were there before. */
  lemma {:induction false} FoldErrors(h: (map<string, nat>, Tally, nat) -> Handled, s0: RunState, n: nat)
    requires forall f: map<string, nat>, t: Tally, k: nat :: h(f, t, k).error <= 1
    ensures var s := Fold(h, s0, n);
      s.errors[..|s0.errors|] == s0.errors && forall k :: |s0.errors| <= k < |s.errors| ==> s.errors[k] <= 1
    decreases n
  {
    if n > 0 {
      FoldErrors(h, s0, n - 1);
      var s := Fold(h, s0, n - 1);
      var r := h(s.files, s.tally, n - 1);
      WordBit(r.error);
      var errs := Fold(h, s0, n).errors;
      assert errs == s.errors + [Word(r.error)];
      assert errs[..|s0.errors|] == s.errors[..|s0.errors|];
      forall k | |s0.errors| <= k < |errs|
        ensures errs[k] <= 1
      {
        if k < |s.errors| {
          assert errs[k] == s.errors[k];
        }
      }
    }
  }

  /** Every file but `f` and its `.bak` backup keeps its size from `before` to `after`. */
  predicate Keeps(before: map<string, nat>, after: map<string, nat>, f: string) {
    forall p :: p in before && p != f && p != BakOf(f) ==> p in after && after[p] == before[p]
  }

  /** The first `n` files of the list and their `.bak` backups. */
  function Touched(list: seq<string>, n: nat): set<string>
    requires n <= |list|
  {
    if n == 0 then {} else Touched(list, n - 1) + {list[n - 1], BakOf(list[n - 1])}
  }

  /** When turn `k` of `h` keeps every file but `list[k]` and its backup, a file none of
      the first `n` turns names keeps its size. */
  lemma {:induction false} FoldKeeps(h: (map<string, nat>, Tally, nat) -> Handled, list: seq<string>,
                                     s0: RunState, n: nat)
    requires n <= |list|
    requires forall f: map<string, nat>, t: Tally, k: nat :: k < |list| ==> Keeps(f, h(f, t, k).files, list[k])
    ensures var s := Fold(h, s0, n);
      forall p :: p in s0.files && p !in Touched(list, n) ==> p in s.files && s.files[p] == s0.files[p]
    decreases n
  {
    if n > 0 {
      FoldKeeps(h, list, s0, n - 1);
      var s := Fold(h, s0, n - 1);
      assert Keeps(s.files, h(s.files, s.tally, n - 1).files, list[n - 1]);
    }
  }

  /** Componentwise sum of counters. */
  function Plus(a: Tally, b: Tally): Tally {
    Tally(a.processed + b.processed, a.bytes + b.bytes, a.savings + b.savings)
  }

  /** The sum of `gain` over the first `n` turns of `h`, each turn judged on the files
      before and after it. */
  function Gains(h: (map<string, nat>, Tally, nat) -> Handled, gain: (map<string, nat>, map<string, nat>, nat) -> Tally,
                 s0: RunState, n: nat): Tally
  {
    if n == 0 then Tally(0, 0, 0)
    else Plus(Gains(h, gain, s0, n - 1), gain(Fold(h, s0, n - 1).files, Fold(h, s0, n).files, n - 1))
  }

  /** A gain of at most one file per turn sums to at most one file per turn. */
  lemma {:induction false} GainsBound(h: (map<string, nat>, Tally, nat) -> Handled,
                                      gain: (map<string, nat>, map<string, nat>, nat) -> Tally, s0: RunState, n: nat)
    requires forall b: map<string, nat>, a: map<string, nat>, k: nat :: gain(b, a, k).processed <= 1
    ensures Gains(h, gain, s0, n).processed <= n
    decreases n
  {
    if n > 0 {
      GainsBound(h, gain, s0, n - 1);
    }
  }

  /** When every turn of `h` adds its `gain` to the counters, `n` turns add the sum of
      the gains. */
  lemma {:induction false} FoldCounts(h: (map<string, nat>, Tally, nat) -> Handled,
                                      gain: (map<string, nat>, map<string, nat>, nat) -> Tally, s0: RunState, n: nat)
    requires forall f: map<string, nat>, t: Tally, k: nat :: h(f, t, k).tally == Plus(t, gain(f, h(f, t, k).files, k))
    ensures Fold(h, s0, n).tally == Plus(s0.tally, Gains(h, gain, s0, n))
    decreases n
  {
    if n > 0 {
      FoldCounts(h, gain, s0, n - 1);
      var s := Fold(h, s0, n - 1);
      assert Fold(h, s0, n).tally == h(s.files, s.tally, n - 1).tally;
    }
  }

  /** `fileHandler(list[k], Options, 0)` at turn `k`, with the codec behaviour `oracle(k)`. */
  function Handler(dirs: set<string>, list: seq<string>, o: Options.EctOptions, oracle: nat -> FileOracle)
    : (map<string, nat>, Tally, nat) -> Handled
  {
    (files: map<string, nat>, t: Tally, k: nat) =>
      if k < |list| then Handle(files, dirs, list[k], o, false, oracle(k), t) else Handled(0, files, t)
  }

  /** The effect of handling `list[..n]` in order. */
  function HandleUpTo(dirs: set<string>, list: seq<string>, o: Options.EctOptions, oracle: nat -> FileOracle,
                      s0: RunState, n: nat): (s: RunState)
    requires n <= |list|
    ensures |s.errors| == |s0.errors| + n
  {
    Fold(Handler(dirs, list, o, oracle), s0, n)
  }

  /** Each `fileHandler` result is 0 or 1; and at turn `k` the handler touches no file
      but `list[k]`, its `.bak` backup, which it can only remove, and its Gzip sibling. */
  lemma HandlerTurns(dirs: set<string>, list: seq<string>, o: Options.EctOptions, oracle: nat -> FileOracle)
    ensures var h := Handler(dirs, list, o, oracle);
      forall f: map<string, nat>, t: Tally, k: nat :: h(f, t, k).error <= 1
    ensures var h := Handler(dirs, list, o, oracle);
      forall f: map<string, nat>, t: Tally, k: nat :: k < |list| ==>
        var r := h(f, t, k);
        && Keeps(f, r.files, list[k])
        && (BakOf(list[k]) in r.files ==> BakOf(list[k]) in f && r.files[BakOf(list[k])] == f[BakOf(list[k])])
        && (forall p :: p in r.files && p !in f ==> p == Sibling(list[k], o.zip))
  {
    var h := Handler(dirs, list, o, oracle);
    forall f: map<string, nat>, t: Tally, k: nat
      ensures h(f, t, k).error <= 1
      ensures k < |list| ==>
        var r := h(f, t, k);
        && Keeps(f, r.files, list[k])
        && (BakOf(list[k]) in r.files ==> BakOf(list[k]) in f && r.files[BakOf(list[k])] == f[BakOf(list[k])])
        && (forall p :: p in r.files && p !in f ==> p == Sibling(list[k], o.zip))
    {
      if k < |list| {
        assert h(f, t, k) == Handle(f, dirs, list[k], o, false, oracle(k), t);
      }
    }
  }

  /** Each handler result is 0 or 1, recorded after the earlier ones. */
  lemma HandleUpToErrors(dirs: set<string>, list: seq<string>, o: Options.EctOptions,
                         oracle: nat -> FileOracle, s0: RunState, n: nat)
    requires n <= |list|
    ensures var s := HandleUpTo(dirs, list, o, oracle, s0, n);
      s.errors[..|s0.errors|] == s0.errors && forall k :: |s0.errors| <= k < |s.errors| ==> s.errors[k] <= 1
  {
    HandlerTurns(dirs, list, o, oracle);
    FoldErrors(Handler(dirs, list, o, oracle), s0, n);
  }

  /** The turn of file `n - 1` appends one result, 0 or 1, touches no other file but its
      `.bak` backup, which it can only remove, and its Gzip sibling. */
  lemma TurnRecordsError(dirs: set<string>, list: seq<string>, o: Options.EctOptions, oracle: nat -> FileOracle,
                         s0: RunState, n: nat)
    requires 0 < n <= |list|
    ensures var before := HandleUpTo(dirs, list, o, oracle, s0, n - 1);
      var after := HandleUpTo(dirs, list, o, oracle, s0, n);
      after.errors[..|before.errors|] == before.errors && after.errors[|before.errors|] <= 1
      && Keeps(before.files, after.files, list[n - 1])
      && (BakOf(list[n - 1]) in after.files ==>
            BakOf(list[n - 1]) in before.files && after.files[BakOf(list[n - 1])] == before.files[BakOf(list[n - 1])])
      && (forall p :: p in after.files && p !in before.files ==> p == Sibling(list[n - 1], o.zip))
  {
    var h := Handler(dirs, list, o, oracle);
    HandlerTurns(dirs, list, o, oracle);
    var s := Fold(h, s0, n - 1);
    var r := h(s.files, s.tally, n - 1);
    WordBit(r.error);
    assert Fold(h, s0, n) == RunState(r.files, r.tally, s.errors + [Word(r.error)]);
  }

  /** What the file at turn `k` adds to the counters, judged on the files `before` and
      `after` its turn: one file, its size, and its size less the size of the file that
      measures the saving afterwards, when it is counted; nothing otherwise. */
  function TurnGain(dirs: set<string>, list: seq<string>, o: Options.EctOptions, oracle: nat -> FileOracle,
                    before: map<string, nat>, after: map<string, nat>, k: nat): (turn: Tally)
    ensures turn.processed <= 1
    ensures turn.processed == 0 ==> turn == Tally(0, 0, 0)
  {
    if k < |list| && Counted(before, dirs, list[k], o, false, oracle(k)) then
      var f := list[k];
      Tally(1, before[f], before[f] - SizeOf(after, SavingsTarget(f, o, GzStatus(before, dirs, f, o, false, oracle(k)))))
    else Tally(0, 0, 0)
  }

  function GainOf(dirs: set<string>, list: seq<string>, o: Options.EctOptions, oracle: nat -> FileOracle)
    : (map<string, nat>, map<string, nat>, nat) -> Tally
  {
    (before: map<string, nat>, after: map<string, nat>, k: nat) => TurnGain(dirs, list, o, oracle, before, after, k)
  }

  /** What the file at turn `k` adds to the counters, judged on the files as they stand at
      its turn. */
  function TurnCounts(dirs: set<string>, list: seq<string>, o: Options.EctOptions, oracle: nat -> FileOracle,
                      s0: RunState, k: nat): (turn: Tally)
    requires k < |list|
    ensures turn.processed <= 1
    ensures turn.processed == 0 ==> turn == Tally(0, 0, 0)
  {
    GainOf(dirs, list, o, oracle)(HandleUpTo(dirs, list, o, oracle, s0, k).files,
                                  HandleUpTo(dirs, list, o, oracle, s0, k + 1).files, k)
  }

  /** The sum of `TurnCounts` over the first `n` turns. */
  function SumCounts(dirs: set<string>, list: seq<string>, o: Options.EctOptions, oracle: nat -> FileOracle,
                     s0: RunState, n: nat): (sum: Tally)
    requires n <= |list|
    ensures sum.processed <= n
  {
    GainsBound(Handler(dirs, list, o, oracle), GainOf(dirs, list, o, oracle), s0, n);
    Gains(Handler(dirs, list, o, oracle), GainOf(dirs, list, o, oracle), s0, n)
  }

  /** `SumCounts` adds one turn's `TurnCounts` at a time. */
  lemma SumCountsStep(dirs: set<string>, list: seq<string>, o: Options.EctOptions, oracle: nat -> FileOracle,
                      s0: RunState, n: nat)
    requires 0 < n <= |list|
    ensures SumCounts(dirs, list, o, oracle, s0, n) ==
      Plus(SumCounts(dirs, list, o, oracle, s0, n - 1), TurnCounts(dirs, list, o, oracle, s0, n - 1))
  {
  }

  /** The counters hold their start values plus, for every file counted at its turn, one
      file, its size and its saving; so each file is counted at most once and the
      counters of files and bytes never shrink. */
  lemma HandleUpToCounts(dirs: set<string>, list: seq<string>, o: Options.EctOptions,
                         oracle: nat -> FileOracle, s0: RunState, n: nat)
    requires n <= |list|
    ensures var s := HandleUpTo(dirs, list, o, oracle, s0, n);
      var sum := SumCounts(dirs, list, o, oracle, s0, n);
      s.tally.processed == s0.tally.processed + sum.processed && s.tally.bytes == s0.tally.bytes + sum.bytes
      && s.tally.savings == s0.tally.savings + sum.savings
    ensures var s := HandleUpTo(dirs, list, o, oracle, s0, n);
      s0.tally.processed <= s.tally.processed <= s0.tally.processed + n && s0.tally.bytes <= s.tally.bytes
  {
    HandlerGains(dirs, list, o, oracle);
    FoldCounts(Handler(dirs, list, o, oracle), GainOf(dirs, list, o, oracle), s0, n);
  }

  /** Each turn of `fileHandler` adds its `TurnGain` to the counters. */
  lemma HandlerGains(dirs: set<string>, list: seq<string>, o: Options.EctOptions, oracle: nat -> FileOracle)
    ensures var h, gain := Handler(dirs, list, o, oracle), GainOf(dirs, list, o, oracle);
      forall f: map<string, nat>, t: Tally, k: nat :: h(f, t, k).tally == Plus(t, gain(f, h(f, t, k).files, k))
  {
    var h, gain := Handler(dirs, list, o, oracle), GainOf(dirs, list, o, oracle);
    forall f: map<string, nat>, t: Tally, k: nat
      ensures h(f, t, k).tally == Plus(t, gain(f, h(f, t, k).files, k))
    {
    }
  }

  /** The turn of file `n - 1` adds exactly its `TurnCounts` to the counters. */
  lemma TurnAddsCounts(dirs: set<string>, list: seq<string>, o: Options.EctOptions, oracle: nat -> FileOracle,
                       s0: RunState, n: nat)
    requires 0 < n <= |list|
    ensures var before := HandleUpTo(dirs, list, o, oracle, s0, n - 1).tally;
      var after := HandleUpTo(dirs, list, o, oracle, s0, n).tally;
      var turn := TurnCounts(dirs, list, o, oracle, s0, n - 1);
      after.processed == before.processed + turn.processed && after.bytes == before.bytes + turn.bytes
      && after.savings == before.savings + turn.savings
  {
    var h, gain := Handler(dirs, list, o, oracle), GainOf(dirs, list, o, oracle);
    HandlerGains(dirs, list, o, oracle);
    var s := Fold(h, s0, n - 1);
    assert Fold(h, s0, n).tally == h(s.files, s.tally, n - 1).tally;
  }

  /** A file that is neither among the first `n` files nor the `.bak` backup of one of
      them keeps its size. */
  lemma HandleUpToOthers(dirs: set<string>, list: seq<string>, o: Options.EctOptions,
                         oracle: nat -> FileOracle, s0: RunState, n: nat)
    requires n <= |list|
    ensures var s := HandleUpTo(dirs, list, o, oracle, s0, n);
      forall p :: p in s0.files && p !in Touched(list, n) ==> p in s.files && s.files[p] == s0.files[p]
  {
    HandlerTurns(dirs, list, o, oracle);
    FoldKeeps(Handler(dirs, list, o, oracle), list, s0, n);
  }

  /** One `fileHandler` call on `list[i]`, as the next step of the fold. */
  method HandleNext(d: FileSystem, c: Counters, list: seq<string>, o: Options.EctOptions, oracle: nat -> FileOracle,
                    i: nat, ghost s0: RunState, ghost errors: seq<bv32>) returns (e: bv32)
    requires i < |list|
    requires RunState(d.files, c.Value(), errors) == HandleUpTo(d.dirs.Keys, list, o, oracle, s0, i)
    modifies d, c
    ensures RunState(d.files, c.Value(), errors + [e]) == HandleUpTo(d.dirs.Keys, list, o, oracle, s0, i + 1)
    ensures d.archives == old(d.archives)
  {
    var r := FileHandler(d, c, list[i], o, false, oracle(i));
    e := Word(r);
  }

  /** The sequential loop: `error |= fileHandler(file, Options, 0)` for each file in order. */
  method SequentialLoop(d: FileSystem, c: Counters, list: seq<string>, o: Options.EctOptions, oracle: nat -> FileOracle)
    returns (error: bv32)
    modifies d, c
    ensures var s := HandleUpTo(d.dirs.Keys, list, o, oracle, RunState(old(d.files), old(c.Value()), []), |list|);
      d.files == s.files && c.Value() == s.tally && error == OrFold(s.errors)
    ensures d.archives == old(d.archives)
  {
    ghost var s0 := RunState(d.files, c.Value(), []);
    ghost var errors: seq<bv32> := [];
    error := 0;
    var i := 0;
    while i < |list|
      invariant i <= |list|
      invariant RunState(d.files, c.Value(), errors) == HandleUpTo(d.dirs.Keys, list, o, oracle, s0, i)
      invariant error == OrFold(errors)
      invariant d.archives == old(d.archives)
    {
      var e := HandleNext(d, c, list, o, oracle, i, s0, errors);
      OrFoldAppend(errors, [e]);
      error := error | e;
      errors := errors + [e];
      i := i + 1;
    }
  }

  /** The worker pool of `multithreadFileLoop`: `workers` threads share the cursor `pos`;
      each turn some running worker takes `pos` and advances it, handles the file at that
      index, or stops when the index is past the end. The workers are interchangeable, so
      only the number still running matters. A count of 0 or less starts no worker. */
  method WorkerPool(d: FileSystem, c: Counters, list: seq<string>, o: Options.EctOptions, oracle: nat -> FileOracle,
                    workers: int) returns (error: bv32, pos: nat)
    modifies d, c
    ensures workers <= 0 ==> error == 0 && pos == 0 && d.files == old(d.files) && c.Value() == old(c.Value())
    ensures workers > 0 ==>
      var s := HandleUpTo(d.dirs.Keys, list, o, oracle, RunState(old(d.files), old(c.Value()), []), |list|);
      d.files == s.files && c.Value() == s.tally && error == OrFold(s.errors) && pos == |list| + workers
    ensures d.archives == old(d.archives)
  {
    error, pos := 0, 0;
    if workers <= 0 {
      return;
    }
    ghost var s0 := RunState(d.files, c.Value(), []);
    ghost var errors: seq<bv32> := [];
    ghost var handled: nat := 0;
    var running: nat := workers;
    while running > 0
      invariant handled <= |list| && pos == handled + (workers - running)
      invariant running <= workers && (running < workers ==> handled == |list|)
      invariant RunState(d.files, c.Value(), errors) == HandleUpTo(d.dirs.Keys, list, o, oracle, s0, handled)
      invariant error == OrFold(errors)
      invariant d.archives == old(d.archives)
      decreases |list| - handled + running
    {
      var next := pos;
      pos := pos + 1;
      if next >= |list| {
        running := running - 1;
      } else {
        assert running == workers && next == handled;
        var e := HandleNext(d, c, list, o, oracle, next, s0, errors);
        OrFoldAppend(errors, [e]);
        error := error | e;
        errors := errors + [e];
        handled := handled + 1;
      }
    }
  }

  /** The entries a directory input contributes: its whole walk under `-recurse`, its own
      entries otherwise. */
  function Entries(dir: Directory, recurse: bool): seq<string> {
    if recurse then dir.tree else dir.children
  }

  /** The file list and the error flag after expanding `inputs[..n]`: a regular file is
      listed as given, a directory by its entries, and anything else sets the error. */
  datatype Listing = Listing(paths: seq<string>, error: bv32)

  function ListUpTo(files: map<string, nat>, dirs: map<string, Directory>, inputs: seq<string>, recurse: bool, n: nat): (l: Listing)
    requires n <= |inputs|
    ensures l.error == 0 || l.error == 1
    ensures l.error == 0 <==> forall k :: 0 <= k < n ==> inputs[k] in files || inputs[k] in dirs
    decreases n
  {
    if n == 0 then Listing([], 0)
    else
      var l := ListUpTo(files, dirs, inputs, recurse, n - 1);
      var arg := inputs[n - 1];
      if arg in files then Listing(l.paths + [arg], l.error)
      else if arg in dirs then Listing(l.paths + Entries(dirs[arg], recurse), l.error)
      else Listing(l.paths, 1)
  }

  /** A path is listed exactly when it is a regular-file input or an entry of a directory
      input. */
  lemma {:induction false} ListedPaths(files: map<string, nat>, dirs: map<string, Directory>, inputs: seq<string>,
                                       recurse: bool, n: nat, p: string)
    requires n <= |inputs|
    ensures p in ListUpTo(files, dirs, inputs, recurse, n).paths <==>
      exists k :: 0 <= k < n && ((inputs[k] in files && p == inputs[k]) ||
                                 (inputs[k] !in files && inputs[k] in dirs && p in Entries(dirs[inputs[k]], recurse)))
    decreases n
  {
    if n > 0 {
      ListedPaths(files, dirs, inputs, recurse, n - 1, p);
      var arg := inputs[n - 1];
      if p in ListUpTo(files, dirs, inputs, recurse, n).paths {
        if p !in ListUpTo(files, dirs, inputs, recurse, n - 1).paths {
          assert (arg in files && p == arg) || (arg !in files && arg in dirs && p in Entries(dirs[arg], recurse));
        }
      }
    }
  }

  /** The loop of `main` that builds `fileList`. */
  method ListInputs(d: FileSystem, inputs: seq<string>, recurse: bool) returns (list: seq<string>, error: bv32)
    ensures Listing(list, error) == ListUpTo(d.files, d.dirs, inputs, recurse, |inputs|)
  {
    list, error := [], 0;
    var j := 0;
    while j < |inputs|
      invariant j <= |inputs|
      invariant Listing(list, error) == ListUpTo(d.files, d.dirs, inputs, recurse, j)
    {
      var arg := inputs[j];
      if arg in d.files {
        list := list + [arg];
      } else if arg in d.dirs {
        list := list + Entries(d.dirs[arg], recurse);
      } else {
        error := 1;
      }
      j := j + 1;
    }
  }

  /** The files of the list are handled by the worker pool when a file-thread count is
      set, sequentially otherwise; either way every handler result is OR-ed into the shared
      `error`, which enters holding the listing error. A negative count starts no worker,
      so the files are left alone. */
  method HandleList(d: FileSystem, c: Counters, list: seq<string>, o: Options.EctOptions,
                    oracle: nat -> FileOracle, error: bv32) returns (code: bv32)
    modifies d, c
    ensures o.fileThreads >= 0 ==>
      var s := HandleUpTo(d.dirs.Keys, list, o, oracle, RunState(old(d.files), old(c.Value()), []), |list|);
      code == error | OrFold(s.errors) && d.files == s.files && c.Value() == s.tally
    ensures o.fileThreads < 0 ==> code == error && d.files == old(d.files) && c.Value() == old(c.Value())
  {
    var e;
    if o.fileThreads != 0 {
      var pos;
      e, pos := WorkerPool(d, c, list, o, oracle, o.fileThreads);
    } else {
      e := SequentialLoop(d, c, list, o, oracle);
    }
    code := error | e;
  }

  /** The file-list path of `main`: expand the inputs, then handle the list. */
  method OptimizeInputs(d: FileSystem, c: Counters, inputs: seq<string>, o: Options.EctOptions,
                        oracle: nat -> FileOracle) returns (code: bv32)
    modifies d, c
    ensures o.fileThreads >= 0 ==>
      var l := ListUpTo(old(d.files), d.dirs, inputs, o.recurse, |inputs|);
      var s := HandleUpTo(d.dirs.Keys, l.paths, o, oracle, RunState(old(d.files), old(c.Value()), []), |l.paths|);
      code == l.error | OrFold(s.errors) && d.files == s.files && c.Value() == s.tally
    ensures o.fileThreads < 0 ==>
      code == ListUpTo(old(d.files), d.dirs, inputs, o.recurse, |inputs|).error &&
      d.files == old(d.files) && c.Value() == old(c.Value())
  {
    var list, error := ListInputs(d, inputs, o.recurse);
    code := HandleList(d, c, list, o, oracle, error);
  }

  /** The `argv` strings at the recorded input indices. */
  function InputArgs(argv: seq<string>, idx: seq<nat>): (args: seq<string>)
    ensures |args| == |idx| && forall k :: 0 <= k < |idx| && idx[k] < |argv| ==> args[k] == argv[idx[k]]
  {
    if idx == [] then [] else [if idx[0] < |argv| then argv[idx[0]] else ""] + InputArgs(argv, idx[1..])
  }

  /** `main` after the arguments: build one archive from the inputs in ZIP mode, optimize
      the listed files otherwise, then report. */
  method Process(d: FileSystem, c: Counters, inputs: seq<string>, o: Options.EctOptions, rz: ReZipOracle,
                 oracle: nat -> FileOracle, elapsed: nat) returns (code: bv32, report: seq<Line>)
    modifies d, c
    ensures report == if o.savingsCounter then ReportLines(c.Value(), elapsed) else []
    ensures o.zip && |inputs| > 0 ==>
      var r := ZipSpec(old(d.Snapshot()), old(d.archives), inputs, rz, old(c.Value()));
      code as int == r.error && d.files == r.files && d.archives == r.archives && c.Value() == r.tally
    ensures !(o.zip && |inputs| > 0) && o.fileThreads >= 0 ==>
      var l := ListUpTo(old(d.files), d.dirs, inputs, o.recurse, |inputs|);
      var s := HandleUpTo(d.dirs.Keys, l.paths, o, oracle, RunState(old(d.files), old(c.Value()), []), |l.paths|);
      code == l.error | OrFold(s.errors) && d.files == s.files && c.Value() == s.tally
    // a negative file-thread count starts no worker: only the listing error remains
    ensures !(o.zip && |inputs| > 0) && o.fileThreads < 0 ==>
      code == ListUpTo(old(d.files), d.dirs, inputs, o.recurse, |inputs|).error &&
      d.files == old(d.files) && c.Value() == old(c.Value())
  {
    if o.zip && |inputs| > 0 {
      var e := ZipHandler(d, c, inputs, rz);
      ErrorBit(e);
      code := e as bv32;
    } else {
      code := OptimizeInputs(d, c, inputs, o, oracle);
    }
    report := if o.savingsCounter then ReportLines(c.Value(), elapsed) else [];
  }

  /** `main`: parse, then either build one archive or optimize the listed files, then
      report. `cores` is `hardware_concurrency()`, `rz` what `ReZipFile` does, `oracle(k)`
      what the codecs do to the `k`-th listed file, `elapsed` the milliseconds measured. */
  method Run(d: FileSystem, c: Counters, argv: seq<string>, cores: nat, rz: ReZipOracle,
             oracle: nat -> FileOracle, elapsed: nat) returns (code: bv32, report: seq<Line>)
    modifies d, c
    ensures Parse(argv, cores).Exit? ==>
      code == 0 && report == [] && d.files == old(d.files) && c.Value() == old(c.Value())
    ensures Parse(argv, cores).Proceed? ==> var p := Parse(argv, cores).parsed;
      && (report == if p.opts.savingsCounter then ReportLines(c.Value(), elapsed) else [])
      && (p.opts.zip && |p.inputs| > 0 ==>
            var r := ZipSpec(old(d.Snapshot()), old(d.archives), InputArgs(argv, p.inputs), rz, old(c.Value()));
            code as int == r.error && d.files == r.files && d.archives == r.archives && c.Value() == r.tally)
      && (!(p.opts.zip && |p.inputs| > 0) ==>
            var l := ListUpTo(old(d.files), d.dirs, InputArgs(argv, p.inputs), p.opts.recurse, |p.inputs|);
            var s := HandleUpTo(d.dirs.Keys, l.paths, p.opts, oracle, RunState(old(d.files), old(c.Value()), []), |l.paths|);
            code == l.error | OrFold(s.errors) && d.files == s.files && c.Value() == s.tally)
  {
    var outcome := ParseArgs(argv, cores);
    if outcome.Exit? {
      return 0, [];
    }
    var p := outcome.parsed;
    assert p.files == |p.inputs| && p.opts.fileThreads >= 0 by {
      ParseResult(argv, cores);
    }
    // `main` tests the input count `files`, which equals the number of inputs
    code, report := Process(d, c, InputArgs(argv, p.inputs), p.opts, rz, oracle, elapsed);
  }
}
