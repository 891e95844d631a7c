/** The small part of the C library that the monitor and the user library rely on:
    NUL-terminated strings, `strtol(s, 0, 0)`, the `%08x` conversion, and splitting
    console text at a separator character. */
module CLib {

  datatype Option<T> = None | Some(value: T)

  const ADDR_SPACE: nat := 0x1_0000_0000

  // ---------------------------------------------------------------- C strings

  /** `s[i]` read as a C array: past the end is the terminating NUL. */
  function At(s: string, i: nat): char {
    if i < |s| then s[i] else '\0'
  }

  /** The NUL-terminated string that starts at offset `i` of buffer `b`. */
  function CStr(b: seq<char>, i: nat): (r: string)
    requires i <= |b|
    ensures '\0' !in r
    ensures i + |r| <= |b| && r == b[i..i + |r|]
    ensures i + |r| == |b| || b[i + |r|] == '\0'
    decreases |b| - i
  {
    if i == |b| || b[i] == '\0' then [] else [b[i]] + CStr(b, i + 1)
  }

  /** A run `w` without NUL that ends at a NUL or at the end of the buffer reads back as `w`. */
  lemma {:induction false} CStrOfRun(b: seq<char>, i: nat, w: string)
    requires i + |w| <= |b| && b[i..i + |w|] == w && '\0' !in w
    requires i + |w| == |b| || b[i + |w|] == '\0'
    ensures CStr(b, i) == w
    decreases |w|
  {
    if w != [] {
      assert b[i] == w[0];
      assert b[i + 1..i + 1 + |w[1..]|] == w[1..];
      CStrOfRun(b, i + 1, w[1..]);
    }
  }

  /** Regrouping consecutive appends to the console trace. */
  lemma AppendAssoc(c: string, a: string, b: string)
    ensures c + a + b == c + (a + b)
  {
  }

  lemma AppendAssoc4(c: string, a: string, b: string, d: string, e: string)
    ensures c + a + b + d + e == c + (a + b + d + e)
  {
  }

  /** Concatenation of a sequence of strings (the trace of consecutive `cprintf`s). */
  function Concat(ss: seq<string>): string {
    if ss == [] then "" else Concat(ss[..|ss| - 1]) + ss[|ss| - 1]
  }

  // ---------------------------------------------------------------- split / join

  /** The fields of `s` between occurrences of `sep`; there is always at least one. */
  function Split(s: string, sep: char): (fs: seq<string>)
    ensures |fs| > 0
  {
    if s == [] then [""]
    else
      var rest := Split(s[1..], sep);
      if s[0] == sep then [""] + rest else [[s[0]] + rest[0]] + rest[1..]
  }

  /** The fields `fs` written out with `sep` between consecutive ones. */
  function Join(fs: seq<string>, sep: char): string
    requires |fs| > 0
  {
    if |fs| == 1 then fs[0] else Join(fs[..|fs| - 1], sep) + [sep] + fs[|fs| - 1]
  }

  /** A string without the separator is a single field. */
  lemma {:induction false} SplitNoSep(s: string, sep: char)
    requires sep !in s
    ensures Split(s, sep) == [s]
  {
    if s != [] {
      SplitNoSep(s[1..], sep);
      assert [s[0]] + s[1..] == s;
    }
  }

  /** Splitting distributes over one occurrence of the separator. */
  lemma {:induction false} SplitAppend(x: string, sep: char, y: string)
    ensures Split(x + [sep] + y, sep) == Split(x, sep) + Split(y, sep)
  {
    var s := x + [sep] + y;
    if x == [] {
      assert s[1..] == y;
    } else {
      assert s[1..] == x[1..] + [sep] + y;
      SplitAppend(x[1..], sep, y);
    }
  }

  /** Split inverts Join when no field contains the separator. */
  lemma {:induction false} SplitJoin(fs: seq<string>, sep: char)
    requires |fs| > 0
    requires forall i :: 0 <= i < |fs| ==> sep !in fs[i]
    ensures Split(Join(fs, sep), sep) == fs
    decreases |fs|
  {
    if |fs| == 1 {
      SplitNoSep(fs[0], sep);
    } else {
      var init := fs[..|fs| - 1];
      SplitJoin(init, sep);
      SplitAppend(Join(init, sep), sep, fs[|fs| - 1]);
      SplitNoSep(fs[|fs| - 1], sep);
      assert init + [fs[|fs| - 1]] == fs;
    }
  }

  /** Text made of complete lines: every line followed by a newline. */
  function Lines(ls: seq<string>): string {
    Concat(seq(|ls|, i requires 0 <= i < |ls| => ls[i] + "\n"))
  }

  /** Writing one more line extends the text by that line and its newline. */
  lemma LinesSnoc(ls: seq<string>, l: string)
    ensures Lines(ls + [l]) == Lines(ls) + l + "\n"
  {
    var full := seq(|ls| + 1, i requires 0 <= i < |ls| + 1 => (ls + [l])[i] + "\n");
    assert full[..|ls|] == seq(|ls|, i requires 0 <= i < |ls| => ls[i] + "\n");
  }

  /** Lines(ls) splits at newlines into `ls` and a final empty field. */
  lemma {:induction false} LinesAsJoin(ls: seq<string>)
    ensures Lines(ls) == Join(ls + [""], '\n')
    decreases |ls|
  {
    if ls != [] {
      var init := ls[..|ls| - 1];
      LinesAsJoin(init);
      var full := seq(|ls|, i requires 0 <= i < |ls| => ls[i] + "\n");
      assert full[..|full| - 1] == seq(|init|, i requires 0 <= i < |init| => init[i] + "\n");
      assert (ls + [""])[..|ls|] == ls;
      if |init| == 0 {
        assert Join([ls[0]], '\n') == ls[0];
      } else {
        assert (init + [""])[..|init|] == init;
        assert (ls + [""])[..|ls|][..|init|] == init;
        assert Join(ls, '\n') == Join(init, '\n') + "\n" + ls[|ls| - 1];
      }
    }
  }

  /** Complete lines without newlines inside read back line by line. */
  lemma SplitLines(ls: seq<string>)
    requires forall i :: 0 <= i < |ls| ==> '\n' !in ls[i]
    ensures Split(Lines(ls), '\n') == ls + [""]
  {
    LinesAsJoin(ls);
    SplitJoin(ls + [""], '\n');
  }

  // ---------------------------------------------------------------- %08x

  function HexDigit(d: nat): char
    requires d < 16
  {
    if d < 10 then '0' + d as char else 'a' + (d - 10) as char
  }

  function Pow16(k: nat): nat {
    if k == 0 then 1 else 16 * Pow16(k - 1)
  }

  /** The low `k` hex digits of `n`, most significant first, zero-padded. */
  function HexDigits(n: nat, k: nat): (r: string)
    ensures |r| == k
  {
    if k == 0 then "" else HexDigits(n / 16, k - 1) + [HexDigit(n % 16)]
  }

  /** `printf("%08x", n)` for a 32-bit value. */
  function Hex8(n: nat): (r: string)
    requires n < ADDR_SPACE
    ensures |r| == 8
  {
    HexDigits(n, 8)
  }

  // ---------------------------------------------------------------- strtol(s, 0, 0)

  /** The value of a digit character in bases up to 36, or -1 for a non-digit. */
  function DigitValue(c: char): int {
    if '0' <= c <= '9' then c as int - '0' as int
    else if 'a' <= c <= 'z' then c as int - 'a' as int + 10
    else if 'A' <= c <= 'Z' then c as int - 'A' as int + 10
    else -1
  }

  predicate IsDigitIn(c: char, base: nat) {
    0 <= DigitValue(c) < base as int
  }

  /** Number of leading characters of `s` that are digits in `base`. */
  function DigitRun(s: string, base: nat): (n: nat)
    ensures n <= |s|
    ensures forall i :: 0 <= i < n ==> IsDigitIn(s[i], base)
    ensures n < |s| ==> !IsDigitIn(s[n], base)
  {
    if s == [] || !IsDigitIn(s[0], base) then 0 else 1 + DigitRun(s[1..], base)
  }

  /** Value of a digit string, accumulated as `val = val * base + dig` left to right. */
  function DigitsValue(s: string, base: nat): int
    requires forall i :: 0 <= i < |s| ==> IsDigitIn(s[i], base)
  {
    if s == [] then 0
    else
      assert IsDigitIn(s[|s| - 1], base);
      DigitsValue(s[..|s| - 1], base) * base + DigitValue(s[|s| - 1])
  }

  /** Index of the first character of `s` at or after `i` that is neither blank nor tab. */
  function SkipBlanks(s: string, i: nat): (j: nat)
    requires i <= |s|
    ensures i <= j <= |s|
    ensures forall m :: i <= m < j ==> s[m] == ' ' || s[m] == '\t'
    ensures j < |s| ==> s[j] != ' ' && s[j] != '\t'
    decreases |s| - i
  {
    if i < |s| && (s[i] == ' ' || s[i] == '\t') then SkipBlanks(s, i + 1) else i
  }

  /** `strtol(s, 0, 0)`: optional blanks and sign, then `0x` for hexadecimal, a leading
      `0` for octal, decimal otherwise; conversion stops at the first non-digit. Overflow
      is not detected. */
  function StrToL(s: string): int {
    var i := SkipBlanks(s, 0);
    var neg := At(s, i) == '-';
    var j := if At(s, i) == '+' || At(s, i) == '-' then i + 1 else i;
    var base: nat := if At(s, j) == '0' && At(s, j + 1) == 'x' then 16 else if At(s, j) == '0' then 8 else 10;
    var k := if base == 16 then j + 2 else if base == 8 then j + 1 else j;
    var digits := s[k..][..DigitRun(s[k..], base)];
    var v := DigitsValue(digits, base);
    if neg then -v else v
  }

  /** Conversion of a `long` to the 32-bit `uintptr_t`. */
  function ToUintptr(x: int): (a: nat)
    ensures a < ADDR_SPACE
  {
    x % ADDR_SPACE
  }

  /** A value that already fits 32 bits converts to itself. */
  lemma ToUintptrSmall(x: int)
    requires 0 <= x < ADDR_SPACE
    ensures ToUintptr(x) == x
  {
  }

  lemma {:induction false} HexDigitsValue(n: nat, k: nat)
    requires n < Pow16(k)
    ensures forall i :: 0 <= i < k ==> IsDigitIn(HexDigits(n, k)[i], 16)
    ensures DigitsValue(HexDigits(n, k), 16) == n
  {
    if k > 0 {
      HexDigitsValue(n / 16, k - 1);
      var h := HexDigits(n, k);
      assert h[..k - 1] == HexDigits(n / 16, k - 1);
    }
  }

  /** A string of valid digits is read whole. */
  lemma {:induction false} DigitRunAll(s: string, base: nat)
    requires forall i :: 0 <= i < |s| ==> IsDigitIn(s[i], base)
    ensures DigitRun(s, base) == |s|
    decreases |s|
  {
    if s != [] {
      assert forall i :: 0 <= i < |s[1..]| ==> s[1..][i] == s[i + 1];
      DigitRunAll(s[1..], base);
    }
  }

  /** `strtol` reads `0x` followed by hex digits as the value of those digits. */
  lemma StrToLHex(h: string)
    requires forall i :: 0 <= i < |h| ==> IsDigitIn(h[i], 16)
    ensures StrToL("0x" + h) == DigitsValue(h, 16)
  {
    var s := "0x" + h;
    DigitRunAll(h, 16);
    assert At(s, 0) == '0' && At(s, 1) == 'x';
    assert SkipBlanks(s, 0) == 0;
    assert s[2..] == h;
    assert h[..|h|] == h;
  }

  /** The eight digits of `%08x` are hex digits whose value is the number printed. */
  lemma Hex8Value(n: nat)
    requires n < ADDR_SPACE
    ensures forall i :: 0 <= i < |Hex8(n)| ==> IsDigitIn(Hex8(n)[i], 16)
    ensures DigitsValue(Hex8(n), 16) == n
  {
    assert Pow16(4) == 65536;
    assert Pow16(8) == 16 * 16 * 16 * 16 * Pow16(4);
    HexDigitsValue(n, 8);
  }

  /** What `0x%08x` prints, `strtol` reads back. */
  lemma HexRoundTrip(n: nat)
    requires n < ADDR_SPACE
    ensures ToUintptr(StrToL("0x" + Hex8(n))) == n
  {
    Hex8Value(n);
    StrToLHex(Hex8(n));
    ToUintptrSmall(StrToL("0x" + Hex8(n)));
  }
}
