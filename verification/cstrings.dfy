/** The C and C++ string primitives the orchestrator's decisions rest on:
    `std::string::find_last_of` with its `npos` result, the two `substr` forms
    it is combined with, `strncmp` on NUL-terminated strings, and `atoi`. */
module CStrings {

  /** A result of `find_last_of`: an index into the string, or `npos`. */
  datatype Pos = At(index: nat) | Npos

  /** The `size_t` comparison `a > b`, where `npos` is the largest `size_t` value. */
  predicate PosGreater(a: Pos, b: Pos) {
    match (a, b)
    case (Npos, Npos) => false
    case (Npos, At(_)) => true
    case (At(_), Npos) => false
    case (At(i), At(j)) => i > j
  }

  /** `s.find_last_of(chars)`: the last index holding one of `chars`, or `npos`. */
  function FindLastOf(s: string, chars: set<char>): (p: Pos)
    ensures p.At? ==> p.index < |s| && s[p.index] in chars
    ensures p.At? ==> forall k :: p.index < k < |s| ==> s[k] !in chars
    ensures p.Npos? ==> forall k :: 0 <= k < |s| ==> s[k] !in chars
    decreases |s|
  {
    if s == [] then Npos
    else if s[|s| - 1] in chars then At(|s| - 1)
    else FindLastOf(s[..|s| - 1], chars)
  }

  /** `s.substr(p + 1)`: in `size_t` arithmetic `npos + 1` wraps to 0, so `npos` keeps all of `s`. */
  function SubstrAfter(s: string, p: Pos): string
    requires p.At? ==> p.index < |s|
  {
    match p
    case Npos => s
    case At(i) => s[i + 1..]
  }

  /** `s.substr(0, p)`: a count of `npos` keeps all of `s`. */
  function SubstrBefore(s: string, p: Pos): string
    requires p.At? ==> p.index <= |s|
  {
    match p
    case Npos => s
    case At(i) => s[..i]
  }

  /** The text after the last `.`, taken as `Ext.substr(Ext.find_last_of(".") + 1)`:
      a name without a dot is its own extension. */
  function Extension(name: string): (x: string)
    ensures '.' !in x
    ensures '.' !in name ==> x == name
    ensures '.' in name ==> |x| < |name| && name == name[..|name| - |x| - 1] + "." + x
  {
    var p := FindLastOf(name, {'.'});
    if p.At? then
      assert name == name[..p.index] + "." + name[p.index + 1..];
      name[p.index + 1..]
    else
      name
  }

  /** The first `n` characters of `s`, or all of it when it is shorter. */
  function Take(s: string, n: nat): string {
    if n <= |s| then s[..n] else s
  }

  /** `strncmp(a, b, n) == 0` for NUL-free C strings: the first `n` characters agree,
      the comparison stopping early only where both strings end together. */
  function StrncmpEq(a: string, b: string, n: nat): bool
    decreases n
  {
    if n == 0 then true
    else if a == [] || b == [] then a == [] && b == []
    else a[0] == b[0] && StrncmpEq(a[1..], b[1..], n - 1)
  }

  /** `strncmp` compares the NUL-terminated strings up to `n` characters: it reports
      equality exactly when their first `n` characters, as far as they go, coincide. */
  lemma {:induction false} StrncmpTake(a: string, b: string, n: nat)
    ensures StrncmpEq(a, b, n) <==> Take(a, n) == Take(b, n)
    decreases n
  {
    if n == 0 {
      assert Take(a, n) == [] == Take(b, n);
    } else if a == [] || b == [] {
      if a != [] || b != [] {
        assert |Take(a, n)| != |Take(b, n)|;
      }
    } else {
      StrncmpTake(a[1..], b[1..], n - 1);
      assert Take(a, n) == [a[0]] + Take(a[1..], n - 1);
      assert Take(b, n) == [b[0]] + Take(b[1..], n - 1);
      if Take(a, n) == Take(b, n) {
        assert Take(a, n)[0] == Take(b, n)[0];
        assert Take(a, n)[1..] == Take(a[1..], n - 1);
        assert Take(b, n)[1..] == Take(b[1..], n - 1);
      }
    }
  }

  /** The option matcher `strncmp(arg, flag, strnlen(arg, 64)) == 0`: for a flag shorter
      than 64 characters it holds exactly when `arg` is a prefix of `flag`, so `-s` and
      even a lone `-` select `-strip`. */
  lemma PrefixOfFlag(arg: string, flag: string)
    requires |flag| < 64
    ensures StrncmpEq(arg, flag, if |arg| < 64 then |arg| else 64) <==> (|arg| <= |flag| && arg == flag[..|arg|])
  {
    var n := if |arg| < 64 then |arg| else 64;
    StrncmpTake(arg, flag, n);
    if |arg| <= |flag| && arg == flag[..|arg|] {
      assert Take(arg, n) == arg == Take(flag, n);
    }
    if Take(arg, n) == Take(flag, n) {
      assert |Take(flag, n)| == |Take(arg, n)| == n;
      assert flag[..|arg|] == Take(flag, n);
    }
  }

  /** `strncmp(arg, flag, |flag|) == 0`: `arg` starts with `flag`. */
  lemma StartsWithFlag(arg: string, flag: string)
    ensures StrncmpEq(arg, flag, |flag|) <==> (|arg| >= |flag| && arg[..|flag|] == flag)
  {
    StrncmpTake(arg, flag, |flag|);
    assert Take(flag, |flag|) == flag;
  }

  predicate IsDigit(c: char) { '0' <= c <= '9' }

  /** The characters C's `isspace` accepts in the "C" locale. */
  predicate IsSpace(c: char) { c == ' ' || c == '\t' || c == '\n' || c == '\U{B}' || c == '\U{C}' || c == '\r' }

  /** The value of the run of decimal digits at the head of `s`, read after `acc`. */
  function DigitRun(s: string, acc: nat): (v: nat)
    ensures v >= acc
    decreases |s|
  {
    if s == [] || !IsDigit(s[0]) then acc
    else DigitRun(s[1..], acc * 10 + (s[0] as int - '0' as int))
  }

  /** `atoi(s)`: leading white space, an optional sign, then decimal digits; 0 when none. */
  function Atoi(s: string): (r: int)
    ensures |s| > 0 && IsDigit(s[0]) ==> r == DigitRun(s, 0) && r >= 0
    ensures |s| > 0 && s[0] == '-' ==> r == -(DigitRun(s[1..], 0) as int) && r <= 0
    ensures |s| > 0 && s[0] == '+' ==> r == DigitRun(s[1..], 0)
    // anything else that is not white space reads as its digit run, which is 0 when empty
    ensures |s| > 0 && !IsSpace(s[0]) && s[0] != '-' && s[0] != '+' ==> r == DigitRun(s, 0)
    ensures |s| > 0 && !IsSpace(s[0]) && s[0] != '-' && s[0] != '+' && !IsDigit(s[0]) ==> r == 0
    decreases |s|
  {
    if s == [] then 0
    else if IsSpace(s[0]) then Atoi(s[1..])
    else if s[0] == '-' then -(DigitRun(s[1..], 0) as int)
    else if s[0] == '+' then DigitRun(s[1..], 0)
    else DigitRun(s, 0)
  }

  /** Leading white space is skipped: `atoi` of a string after any run of white space is
      `atoi` of the string itself. */
  lemma {:induction false} AtoiSkipsSpace(w: string, s: string)
    requires forall k :: 0 <= k < |w| ==> IsSpace(w[k])
    ensures Atoi(w + s) == Atoi(s)
    decreases |w|
  {
    if w != [] {
      assert (w + s)[0] == w[0] && IsSpace(w[0]);
      assert (w + s)[1..] == w[1..] + s;
      assert Atoi(w + s) == Atoi(w[1..] + s);
      AtoiSkipsSpace(w[1..], s);
    } else {
      assert w + s == s;
    }
  }
}
