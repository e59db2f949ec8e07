/** The run configuration, `ECTOptions`, built once by the argument loop and read by
    every later stage. */
module Options {

  /** One field per member of `ECTOptions`. `Mode` and `palette_sort` are `unsigned` in
      the program; the thread counts are `int` and may be set to any value by the parser. */
  datatype EctOptions = EctOptions(
    mode: nat,
    paletteSort: nat,
    strip: bool,
    progressive: bool,
    autorotate: nat,
    jpegActive: bool,
    pngActive: bool,
    savingsCounter: bool,
    strict: bool,
    arithmetic: bool,
    gzip: bool,
    zip: bool,
    reuse: bool,
    allFilters: bool,
    allFiltersBrute: bool,
    allFiltersCheap: bool,
    recurse: bool,
    deflateThreads: int,
    fileThreads: int,
    keep: bool)

  /** The values `main` stores before reading any argument: effort level 3, PNG and JPEG
      enabled, savings report on, everything else off. */
  function Defaults(): EctOptions {
    EctOptions(
      mode := 3, paletteSort := 0, strip := false, progressive := false, autorotate := 0,
      jpegActive := true, pngActive := true, savingsCounter := true, strict := false,
      arithmetic := false, gzip := false, zip := false, reuse := false, allFilters := false,
      allFiltersBrute := false, allFiltersCheap := false, recurse := false,
      deflateThreads := 0, fileThreads := 0, keep := false)
  }
}
