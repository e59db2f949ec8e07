/** The argument loop of `main`: a left fold over `argv[1..]` that sets option fields and
    collects the indices of the inputs, followed by the two checks that run after it. */
module Args {
  import opened CStrings
  import opened Options

  /** What the loop has built so far: the options, the `argv` indices of the inputs in
      order (`args`), and their number (`files`). */
  datatype Parsed = Parsed(opts: EctOptions, inputs: seq<nat>, files: nat)

  /** `Proceed` when `main` goes on to process inputs; `Exit` when it returns 0 first
      (`-help`, an unknown flag, `-autorotate` without `-strip`, or no argument at all). */
  datatype Outcome = Proceed(parsed: Parsed) | Exit

  /** `120 << 8`, the largest palette-sort setting. */
  const PaletteSortCap: nat := 120 * 256

  /** `strncmp(arg, flag, strnlen(arg, 64)) == 0`, the matcher of the short flags. */
  predicate Matches(arg: string, flag: string) {
    StrncmpEq(arg, flag, if |arg| < 64 then |arg| else 64)
  }

  /** `strncmp(arg, prefix, |prefix|) == 0` (see `CStrings.StartsWithFlag`). */
  predicate StartsWith(arg: string, prefix: string) {
    |arg| >= |prefix| && arg[..|prefix|] == prefix
  }

  /** An argument is an input unless `strncmp(arg, "-", 1) == 0`. */
  predicate IsInput(arg: string) {
    !StrncmpEq(arg, "-", 1)
  }

  /** `atoi(..) << 8` stored into the `unsigned` field `palette_sort`, then capped. */
  function PaletteSort(n: int): (r: nat)
    ensures r <= PaletteSortCap
    ensures 0 <= n <= 120 ==> r == n * 256
    ensures 120 < n && n * 256 < 0x1_0000_0000 ==> r == PaletteSortCap
    ensures n < 0 && -0x8000_0000 <= n * 256 ==> r == PaletteSortCap
  {
    var u := (n * 256) % 0x1_0000_0000;
    if u > PaletteSortCap then PaletteSortCap else u
  }

  /** The two's-complement reading of a 32-bit pattern, as when an `unsigned` is stored in an `int`. */
  function Int32(u: int): int
    requires 0 <= u < 0x1_0000_0000
  {
    if u < 0x8000_0000 then u else u - 0x1_0000_0000
  }

  /** The thread count of `--mt-deflate=N` and `--mt-file=N` as the code computes it:
      `N > 0 ? N : max(0, hardware_concurrency() + N)`, where the sum is `unsigned`. The
      definition of `max` is not part of this model; this reading takes it to be a macro
      or a comparison in `unsigned`, so that it never clamps and the wrapped sum is
      stored in an `int`. A `max` that compares in `int` would clamp at 0 instead, and
      that reading is exactly `ThreadCount`. */
  function ThreadCountAsWritten(n: int, cores: nat): int {
    if n > 0 then n else Int32((cores + n) % 0x1_0000_0000)
  }

  /** With more negative threads than cores the count comes out negative: `--mt-file=-100`
      on an 8-core machine gives -92, so no worker thread is started and no file is processed. */
  lemma ThreadCountCanBeNegative(n: int, cores: nat)
    requires -0x8000_0000 <= cores + n < 0
    ensures ThreadCountAsWritten(n, cores) == cores + n < 0
  {
    assert (cores + n) % 0x1_0000_0000 == cores + n + 0x1_0000_0000;
  }

  /** The intended thread count: `N` when positive, otherwise the core count reduced by
      `-N` and clamped at 0. It agrees with the code wherever the code does not wrap. */
  function ThreadCount(n: int, cores: nat): (r: nat)
    ensures n > 0 ==> r == n
    ensures n <= 0 ==> r <= cores
  {
    if n > 0 then n else if cores + n > 0 then cores + n else 0
  }

  /** The intended count is the computed one wherever the unsigned sum does not wrap, and
      0 where it would have gone negative. */
  lemma ThreadCountAgrees(n: int, cores: nat)
    requires n <= 0
    ensures 0 <= cores + n < 0x8000_0000 ==> ThreadCount(n, cores) == ThreadCountAsWritten(n, cores)
    ensures cores + n < 0 ==> ThreadCount(n, cores) == 0
  {
    if 0 <= cores + n < 0x8000_0000 {
      assert (cores + n) % 0x1_0000_0000 == cores + n;
    }
  }

  /** The options the loop builds keep four facts: the effort level is never 0, `-zip`
      never leaves `Gzip` off, the palette-sort count is capped, and no thread count is
      negative. */
  predicate Sane(o: EctOptions) {
    o.mode >= 1 && (o.zip ==> o.gzip) && o.paletteSort <= PaletteSortCap && o.deflateThreads >= 0 && o.fileThreads >= 0
  }

  /** What a flag does to the options: it sets them, or makes `main` return. */
  datatype FlagEffect = Set(opts: EctOptions) | Quit

  /** Every flag keeps sane options sane. */
  predicate KeepsSanity(o: EctOptions, e: FlagEffect) {
    e.Set? && Sane(o) ==> Sane(e.opts)
  }

  /** How one test of the loop accepts an argument that starts with `-`. */
  datatype Test =
    | Prefix(flag: string)  // `strncmp(arg, flag, strnlen(arg, 64)) == 0`: `arg` is a prefix of `flag`
    | Exact(flag: string)   // `strcmp(arg, flag) == 0`
    | Starts(flag: string)  // `strncmp(arg, flag, strlen(flag)) == 0`: `flag` is a prefix of `arg`
    | Level                 // `isdigit(arg[1])`

  predicate Accepts(t: Test, arg: string) {
    match t
    case Prefix(flag) => Matches(arg, flag)
    case Exact(flag) => arg == flag
    case Starts(flag) => StartsWith(arg, flag)
    case Level => |arg| >= 2 && IsDigit(arg[1])
  }

  /** What the branch of an accepting test does; `Unknown` is the final `else`. The two
      thread-count branches are split by their inner tests: `=N`, the bare flag, and any
      other suffix, which is accepted and ignored. */
  datatype Action =
    | Strip | Progressive | RotatePerfect | RotateForce | EffortLevel | GzipMode | ZipMode | Help
    | Quiet | Keep | NoJpeg | NoPng | Recurse | Strict | Reuse | AllFilters | AllFiltersBrute
    | AllFiltersCheap | PaletteSortArg | DeflateThreadsArg | DeflateThreadsAll | FileThreadsArg
    | FileThreadsAll | Ignored | Arithmetic | Unknown

  /** An `else if` chain of tests: the first test that accepts the argument runs its
      action; past the last one the flag is unknown. */
  datatype Tests = Done | Try(test: Test, action: Action, otherwise: Tests)

  /** The tests of the loop in the order the program writes them (the two `strcmp`s of
      `--disable-jpeg` and `--disable-jpg` are one branch; each thread-count branch is its
      outer `strncmp` after the two inner tests). */
  const FlagTests: Tests :=
    Try(Prefix("-strip"), Strip,
    Try(Prefix("-progressive"), Progressive,
    Try(Prefix("-autorotate"), RotatePerfect,
    Try(Prefix("-autorotate=force"), RotateForce,
    Try(Level, EffortLevel,
    Try(Prefix("-gzip"), GzipMode,
    Try(Prefix("-zip"), ZipMode,
    Try(Prefix("-help"), Help,
    Try(Prefix("-quiet"), Quiet,
    Try(Prefix("-keep"), Keep,
    Try(Exact("--disable-jpeg"), NoJpeg,
    Try(Exact("--disable-jpg"), NoJpeg,
    Try(Exact("--disable-png"), NoPng,
    Try(Prefix("-recurse"), Recurse,
    Try(Exact("--strict"), Strict,
    Try(Exact("--reuse"), Reuse,
    Try(Exact("--allfilters"), AllFilters,
    Try(Exact("--allfilters-b"), AllFiltersBrute,
    Try(Exact("--allfilters-c"), AllFiltersCheap,
    Try(Starts("--pal_sort="), PaletteSortArg,
    Try(Starts("--mt-deflate="), DeflateThreadsArg,
    Try(Exact("--mt-deflate"), DeflateThreadsAll,
    Try(Starts("--mt-deflate"), Ignored,
    Try(Starts("--mt-file="), FileThreadsArg,
    Try(Exact("--mt-file"), FileThreadsAll,
    Try(Starts("--mt-file"), Ignored,
    Try(Exact("--arithmetic"), Arithmetic,
    Done)))))))))))))))))))))))))))

  /** The chain as a list of rows, to name the `j`-th test. */
  function Rows(t: Tests): (r: seq<(Test, Action)>)
    ensures t.Try? ==> |r| > 0 && r[0] == (t.test, t.action) && r[1..] == Rows(t.otherwise)
  {
    match t
    case Done => []
    case Try(test, action, otherwise) => [(test, action)] + Rows(otherwise)
  }

  /** The number `atoi` reads at offset `k` of `arg`, as in `atoi(argv[i] + k)`. */
  function NumberAt(arg: string, k: nat): int {
    if k <= |arg| then Atoi(arg[k..]) else 0
  }

  /** What a branch does to the options: it sets them, or makes `main` return. */
  function Perform(o: EctOptions, a: Action, arg: string, cores: nat): FlagEffect {
    match a
    case Strip => Set(o.(strip := true))
    case Progressive => Set(o.(progressive := true))
    case RotatePerfect => Set(o.(autorotate := 2))
    case RotateForce => Set(o.(autorotate := 1))
    case EffortLevel =>
      // the test has seen a digit after the `-`, so `atoi` reads a count that is not negative
      var l := NumberAt(arg, 1);
      Set(o.(mode := if l <= 0 then 1 else l))
    case GzipMode => Set(o.(gzip := true))
    case ZipMode => Set(o.(zip := true, gzip := true))
    case Help => Quit
    case Quiet => Set(o.(savingsCounter := false))
    case Keep => Set(o.(keep := true))
    case NoJpeg => Set(o.(jpegActive := false))
    case NoPng => Set(o.(pngActive := false))
    case Recurse => Set(o.(recurse := true))
    case Strict => Set(o.(strict := true))
    case Reuse => Set(o.(reuse := true))
    case AllFilters => Set(o.(allFilters := true))
    case AllFiltersBrute => Set(o.(allFiltersBrute := true, allFilters := true))
    case AllFiltersCheap => Set(o.(allFiltersCheap := true))
    case PaletteSortArg => Set(o.(paletteSort := PaletteSort(NumberAt(arg, 11))))
    case DeflateThreadsArg => Set(o.(deflateThreads := ThreadCount(NumberAt(arg, 13), cores)))
    case DeflateThreadsAll => Set(o.(deflateThreads := cores))
    case FileThreadsArg => Set(o.(fileThreads := ThreadCount(NumberAt(arg, 10), cores)))
    case FileThreadsAll => Set(o.(fileThreads := cores))
    case Ignored => Set(o)
    case Arithmetic => Set(o.(arithmetic := true))
    case Unknown => Quit
  }

  /** Every action keeps sane options sane. */
  lemma PerformKeepsSanity(o: EctOptions, a: Action, arg: string, cores: nat)
    ensures KeepsSanity(o, Perform(o, a, arg, cores))
  {
    match a
    case Strip =>
    case Progressive =>
    case RotatePerfect =>
    case RotateForce =>
    case EffortLevel =>
    case GzipMode =>
    case ZipMode =>
    case Help =>
    case Quiet =>
    case Keep =>
    case NoJpeg =>
    case NoPng =>
    case Recurse =>
    case Strict =>
    case Reuse =>
    case AllFilters =>
    case AllFiltersBrute =>
    case AllFiltersCheap =>
    case PaletteSortArg =>
    case DeflateThreadsArg =>
    case DeflateThreadsAll =>
    case FileThreadsArg =>
    case FileThreadsAll =>
    case Ignored =>
    case Arithmetic =>
    case Unknown =>
  }

  /** Only `-help` and an unknown flag make `main` return. */
  lemma OnlyHelpAndUnknownQuit(o: EctOptions, a: Action, arg: string, cores: nat)
    ensures Perform(o, a, arg, cores) == Quit <==> a == Help || a == Unknown
  {
    match a
    case Strip =>
    case Progressive =>
    case RotatePerfect =>
    case RotateForce =>
    case EffortLevel =>
    case GzipMode =>
    case ZipMode =>
    case Help =>
    case Quiet =>
    case Keep =>
    case NoJpeg =>
    case NoPng =>
    case Recurse =>
    case Strict =>
    case Reuse =>
    case AllFilters =>
    case AllFiltersBrute =>
    case AllFiltersCheap =>
    case PaletteSortArg =>
    case DeflateThreadsArg =>
    case DeflateThreadsAll =>
    case FileThreadsArg =>
    case FileThreadsAll =>
    case Ignored =>
    case Arithmetic =>
    case Unknown =>
  }


  /** The flag tests of the chain `t`: the first that accepts `arg` decides what happens;
      when none does, the flag is unknown and `main` returns. */
  function ApplyTests(o: EctOptions, arg: string, cores: nat, t: Tests): (e: FlagEffect)
    ensures KeepsSanity(o, e)
  {
    match t
    case Done => Quit
    case Try(test, action, otherwise) =>
      if Accepts(test, arg) then
        PerformKeepsSanity(o, action, arg, cores);
        Perform(o, action, arg, cores)
      else ApplyTests(o, arg, cores, otherwise)
  }

  /** What a flag argument does to the options. */
  function ApplyFlag(o: EctOptions, arg: string, cores: nat): (e: FlagEffect)
    ensures KeepsSanity(o, e)
  {
    ApplyTests(o, arg, cores, FlagTests)
  }

  /** The first test that accepts the flag decides: its action runs, and no later test is
      looked at. */
  lemma {:induction false} FirstTestDecides(o: EctOptions, arg: string, cores: nat, t: Tests, j: nat)
    requires j < |Rows(t)| && Accepts(Rows(t)[j].0, arg)
    requires forall i :: 0 <= i < j ==> !Accepts(Rows(t)[i].0, arg)
    ensures ApplyTests(o, arg, cores, t) == Perform(o, Rows(t)[j].1, arg, cores)
  {
    if j > 0 {
      var rest := Rows(t.otherwise);
      assert forall i :: 0 <= i < j - 1 ==> rest[i] == Rows(t)[i + 1];
      FirstTestDecides(o, arg, cores, t.otherwise, j - 1);
    }
  }

  /** A flag no test accepts is unknown, and `main` returns. */
  lemma {:induction false} UnknownFlagQuits(o: EctOptions, arg: string, cores: nat, t: Tests)
    requires forall i :: 0 <= i < |Rows(t)| ==> !Accepts(Rows(t)[i].0, arg)
    ensures ApplyTests(o, arg, cores, t) == Quit
  {
    if t.Try? {
      var rest := Rows(t.otherwise);
      assert forall i :: 0 <= i < |rest| ==> rest[i] == Rows(t)[i + 1];
      UnknownFlagQuits(o, arg, cores, t.otherwise);
    }
  }

  /** One turn of the loop, on argument `arg` at index `i`: an input is recorded, a flag
      changes the options and nothing else. */
  function Step(p: Parsed, i: nat, arg: string, cores: nat): (r: Outcome)
    ensures IsInput(arg) ==> r == Proceed(p.(inputs := p.inputs + [i], files := p.files + 1))
    ensures !IsInput(arg) && r.Proceed? ==> r.parsed.inputs == p.inputs && r.parsed.files == p.files
    ensures r.Proceed? && Sane(p.opts) ==> Sane(r.parsed.opts)
  {
    if IsInput(arg) then Proceed(p.(inputs := p.inputs + [i], files := p.files + 1))
    else match ApplyFlag(p.opts, arg, cores)
      case Quit => Exit
      case Set(o) => Proceed(p.(opts := o))
  }

  /** The state after the loop has consumed `argv[1..n]`. */
  function ParseUpTo(argv: seq<string>, n: nat, cores: nat): Outcome
    requires n <= |argv|
    decreases n
  {
    if n <= 1 then Proceed(Parsed(Defaults(), [], 0))
    else match ParseUpTo(argv, n - 1, cores)
      case Exit => Exit
      case Proceed(p) => Step(p, n - 1, argv[n - 1], cores)
  }

  /** The checks after the loop: `-autorotate` needs `-strip`, and `--reuse` switches
      `--allfilters` off. */
  function Finish(o: Outcome): Outcome {
    match o
    case Exit => Exit
    case Proceed(p) =>
      if p.opts.autorotate > 0 && !p.opts.strip then Exit
      else if p.opts.reuse then Proceed(p.(opts := p.opts.(allFilters := false)))
      else Proceed(p)
  }

  /** The whole of the argument handling of `main`; with no argument it only prints usage. */
  function Parse(argv: seq<string>, cores: nat): Outcome {
    if |argv| < 2 then Exit else Finish(ParseUpTo(argv, |argv|, cores))
  }

  /** Once the loop has returned, later arguments are never looked at. */
  lemma {:induction false} ExitSticks(argv: seq<string>, m: nat, n: nat, cores: nat)
    requires m <= n <= |argv|
    requires ParseUpTo(argv, m, cores) == Exit
    ensures ParseUpTo(argv, n, cores) == Exit
    decreases n - m
  {
    if m < n {
      ExitSticks(argv, m, n - 1, cores);
      assert ParseUpTo(argv, n - 1, cores).Exit?;
    }
  }

  /** The loop of `main`, one argument at a time; it returns at the first flag that makes
      `main` return. */
  method ArgumentLoop(argv: seq<string>, cores: nat) returns (r: Outcome)
    ensures r == ParseUpTo(argv, |argv|, cores)
  {
    var p := Parsed(Defaults(), [], 0);
    var i := 1;
    if |argv| <= 1 {
      return Proceed(p);
    }
    while i < |argv|
      invariant 1 <= i <= |argv|
      invariant ParseUpTo(argv, i, cores) == Proceed(p)
    {
      var next := Step(p, i, argv[i], cores);
      if next.Exit? {
        ExitSticks(argv, i + 1, |argv|, cores);
        return Exit;
      }
      p := next.parsed;
      i := i + 1;
    }
    r := Proceed(p);
  }

  /** The argument handling of `main`: usage without arguments, the loop, then the two
      checks after it. */
  method ParseArgs(argv: seq<string>, cores: nat) returns (o: Outcome)
    ensures o == Parse(argv, cores)
  {
    if |argv| < 2 {
      return Exit;
    }
    var r := ArgumentLoop(argv, cores);
    if r.Exit? {
      return Exit;
    }
    var p := r.parsed;
    if p.opts.autorotate > 0 && !p.opts.strip {
      return Exit;
    }
    if p.opts.reuse {
      p := p.(opts := p.opts.(allFilters := false));
    }
    o := Proceed(p);
  }

  /** The inputs are exactly the non-flag arguments, as strictly increasing indices, and
      `files` counts them. */
  lemma {:induction false} InputsAreNonFlags(argv: seq<string>, n: nat, cores: nat)
    requires n <= |argv|
    requires ParseUpTo(argv, n, cores).Proceed?
    ensures var p := ParseUpTo(argv, n, cores).parsed;
      && p.files == |p.inputs|
      && (forall k :: 0 <= k < |p.inputs| ==> 1 <= p.inputs[k] < n && IsInput(argv[p.inputs[k]]))
      && (forall k, l :: 0 <= k < l < |p.inputs| ==> p.inputs[k] < p.inputs[l])
      && (forall j :: 1 <= j < n && IsInput(argv[j]) ==> j in p.inputs)
    decreases n
  {
    if n > 1 {
      var prev := ParseUpTo(argv, n - 1, cores);
      assert prev.Proceed?;
      InputsAreNonFlags(argv, n - 1, cores);
    }
  }

  lemma {:induction false} LoopKeepsSane(argv: seq<string>, n: nat, cores: nat)
    requires n <= |argv|
    requires ParseUpTo(argv, n, cores).Proceed?
    ensures Sane(ParseUpTo(argv, n, cores).parsed.opts)
    decreases n
  {
    if n > 1 {
      LoopKeepsSane(argv, n - 1, cores);
    }
  }

  /** What `main` holds when it goes on to the files: sane options, `--reuse` excludes
      `--allfilters`, autorotation only with `-strip`, and the inputs in argument order. */
  lemma ParseResult(argv: seq<string>, cores: nat)
    requires Parse(argv, cores).Proceed?
    ensures var p := Parse(argv, cores).parsed;
      && Sane(p.opts)
      && (p.opts.reuse ==> !p.opts.allFilters)
      && (p.opts.autorotate > 0 ==> p.opts.strip)
      && p.files == |p.inputs|
      && (forall k :: 0 <= k < |p.inputs| ==> 1 <= p.inputs[k] < |argv| && IsInput(argv[p.inputs[k]]))
      && (forall k, l :: 0 <= k < l < |p.inputs| ==> p.inputs[k] < p.inputs[l])
      && (forall j :: 1 <= j < |argv| && IsInput(argv[j]) ==> j in p.inputs)
  {
    LoopKeepsSane(argv, |argv|, cores);
    InputsAreNonFlags(argv, |argv|, cores);
  }

  /** Any prefix of `-strip` that starts with `-`, down to a lone `-`, sets `strip`. */
  lemma PrefixSetsStrip(p: Parsed, i: nat, arg: string, cores: nat)
    requires 1 <= |arg| <= 6 && arg == "-strip"[..|arg|]
    ensures ApplyFlag(p.opts, arg, cores) == Set(p.opts.(strip := true))
    ensures Step(p, i, arg, cores) == Proceed(p.(opts := p.opts.(strip := true)))
  {
    StartsWithFlag(arg, "-");
    PrefixOfFlag(arg, "-strip");
  }
}
