/** The kernel monitor: its in-place command-line tokenizer, the lookup of the command
    in a fixed table, and the commands that list the table and read or edit the kernel's
    page table. Console output is a text trace the commands append to. */
module Monitor {
  import opened CLib
  import opened Mmu

  /** Size of `argv`; a command receives at most MAXARGS - 1 arguments. */
  const MAXARGS: nat := 16

  /** `strchr(WHITESPACE, c)` for a non-NUL `c`, where WHITESPACE is tab, CR, LF and blank. */
  predicate IsSpace(c: char) {
    c == '\t' || c == '\r' || c == '\n' || c == ' '
  }

  // ---------------------------------------------------------------- tokens

  /** A possible argument: non-empty and free of whitespace. */
  predicate IsWord(w: string) {
    |w| > 0 && forall j :: 0 <= j < |w| ==> !IsSpace(w[j])
  }

  /** Length of the run of non-whitespace characters that starts `s`. */
  function WordLen(s: string): (n: nat)
    ensures n <= |s|
  {
    if s == [] || IsSpace(s[0]) then 0 else 1 + WordLen(s[1..])
  }

  /** The run WordLen measures is free of whitespace and ends at whitespace or the end. */
  lemma {:induction false} WordLenRun(s: string)
    ensures forall j :: 0 <= j < WordLen(s) ==> !IsSpace(s[j])
    ensures WordLen(s) < |s| ==> IsSpace(s[WordLen(s)])
  {
    if s != [] && !IsSpace(s[0]) {
      WordLenRun(s[1..]);
      forall j | 0 <= j < WordLen(s)
        ensures !IsSpace(s[j])
      {
        if j > 0 {
          assert s[j] == s[1..][j - 1];
        }
      }
    }
  }

  /** The arguments of a command line: its maximal runs of non-whitespace, in order. */
  function Tokens(s: string): (ts: seq<string>)
    decreases |s|
  {
    if s == [] then []
    else if IsSpace(s[0]) then Tokens(s[1..])
    else var n := WordLen(s); [s[..n]] + Tokens(s[n..])
  }

  /** Every argument is a possible argument: non-empty and free of whitespace. */
  lemma {:induction false} TokensAreWords(s: string)
    ensures forall i :: 0 <= i < |Tokens(s)| ==> IsWord(Tokens(s)[i])
    decreases |s|
  {
    if s == [] {
    } else if IsSpace(s[0]) {
      TokensAreWords(s[1..]);
    } else {
      var n := WordLen(s);
      WordLenRun(s);
      TokensAreWords(s[n..]);
      var ts := Tokens(s);
      assert ts == [s[..n]] + Tokens(s[n..]);
      forall i | 0 <= i < |ts|
        ensures IsWord(ts[i])
      {
        if i > 0 {
          assert ts[i] == Tokens(s[n..])[i - 1];
        }
      }
    }
  }

  /** Offset of `s` at which the parser stops when there is room for `k` more arguments:
      the start of the first argument that does not fit, or the end of `s`. */
  function Stop(s: string, k: nat): (p: nat)
    ensures p <= |s|
    ensures p < |s| ==> !IsSpace(s[p])
    decreases |s|
  {
    if s == [] then 0
    else if IsSpace(s[0]) then 1 + Stop(s[1..], k)
    else if k == 0 then 0
    else var n := WordLen(s); n + Stop(s[n..], k - 1)
  }

  /** The parser reaches the end of the line exactly when the line has at most `k` arguments. */
  lemma {:induction false} StopAtEnd(s: string, k: nat)
    ensures Stop(s, k) == |s| <==> |Tokens(s)| <= k
    decreases |s|
  {
    if s == [] {
    } else if IsSpace(s[0]) {
      StopAtEnd(s[1..], k);
    } else if k > 0 {
      StopAtEnd(s[WordLen(s)..], k - 1);
    }
  }

  /** A run of non-whitespace that reaches the next whitespace or the end is its whole length. */
  lemma {:induction false} WordLenExact(t: string, n: nat)
    requires n <= |t|
    requires forall j :: 0 <= j < n ==> !IsSpace(t[j])
    requires n == |t| || IsSpace(t[n])
    ensures WordLen(t) == n
  {
    if n > 0 {
      WordLenExact(t[1..], n - 1);
    }
  }

  /** A single word is one token. */
  lemma TokensWord(w: string)
    requires IsWord(w)
    ensures Tokens(w) == [w]
  {
    WordLenExact(w, |w|);
    assert w[..|w|] == w && w[|w|..] == [];
  }

  /** Tokenizing distributes over a blank. */
  lemma {:induction false} TokensAppend(x: string, y: string)
    ensures Tokens(x + " " + y) == Tokens(x) + Tokens(y)
    decreases |x|
  {
    var s := x + " " + y;
    if x == [] {
      assert s[1..] == y;
    } else if IsSpace(x[0]) {
      assert s[1..] == x[1..] + " " + y;
      TokensAppend(x[1..], y);
    } else {
      var n := WordLen(x);
      WordLenConcat(x, " " + y);
      assert s == x + (" " + y);
      assert x[n..] + (" " + y) == x[n..] + " " + y;
      TokensAppend(x[n..], y);
    }
  }

  /** Text that starts with whitespace does not extend the word that starts `x`. */
  lemma WordLenConcat(x: string, t: string)
    requires t != [] && IsSpace(t[0])
    ensures var n := WordLen(x); WordLen(x + t) == n && (x + t)[..n] == x[..n] && (x + t)[n..] == x[n..] + t
  {
    var n := WordLen(x);
    var s := x + t;
    WordLenRun(x);
    forall j | 0 <= j < n
      ensures !IsSpace(s[j])
    {
      assert s[j] == x[j];
    }
    assert s[n] == if n < |x| then x[n] else t[0];
    WordLenExact(s, n);
  }

  /** Words written out with single blanks between them tokenize back to those words. */
  lemma {:induction false} TokensJoin(ws: seq<string>)
    requires |ws| > 0
    requires forall i :: 0 <= i < |ws| ==> IsWord(ws[i])
    ensures Tokens(Join(ws, ' ')) == ws
    decreases |ws|
  {
    var last := ws[|ws| - 1];
    TokensWord(last);
    if |ws| > 1 {
      var init := ws[..|ws| - 1];
      TokensJoin(init);
      TokensAppend(Join(init, ' '), last);
      assert init + [last] == ws;
    }
  }

  /** A run of whitespace contributes no argument and only its length to the stop offset. */
  lemma {:induction false} SkipSpaces(s: string, from: nat, p: nat, k: nat)
    requires from <= p <= |s|
    requires forall j :: from <= j < p ==> IsSpace(s[j])
    ensures Tokens(s[from..]) == Tokens(s[p..])
    ensures Stop(s[from..], k) == (p - from) + Stop(s[p..], k)
    decreases p - from
  {
    if from < p {
      assert s[from..][1..] == s[from + 1..];
      SkipSpaces(s, from + 1, p, k);
    }
  }

  /** Blanking one more whitespace character of the line. */
  lemma BlankStep(b0: seq<char>, p: nat)
    requires p < |b0| && IsSpace(b0[p])
    ensures Blank(b0, p)[p := '\0'] == Blank(b0, p + 1)
  {
  }

  lemma TakeWord(s: string, start: nat, pos: nat, k: nat)
    requires start < pos <= |s| && k > 0
    requires forall j :: start <= j < pos ==> !IsSpace(s[j])
    requires pos == |s| || IsSpace(s[pos])
    ensures Tokens(s[start..]) == [s[start..pos]] + Tokens(s[pos..])
    ensures Stop(s[start..], k) == (pos - start) + Stop(s[pos..], k - 1)
  {
    var t := s[start..];
    WordLenExact(t, pos - start);
    assert t[..pos - start] == s[start..pos];
    assert t[pos - start..] == s[pos..];
  }

  /** Buffer `b` once every whitespace character before offset `limit` is overwritten with NUL. */
  function Blank(b: seq<char>, limit: nat): (r: seq<char>)
    ensures |r| == |b|
  {
    seq(|b|, i requires 0 <= i < |b| => if i < limit && IsSpace(b[i]) then '\0' else b[i])
  }

  /** Argument `w` starts at offset `st` of line `s` and is followed by whitespace or the end. */
  ghost predicate ArgAt(s: string, st: nat, w: string) {
    st + |w| <= |s| && s[st..st + |w|] == w && (st + |w| == |s| || IsSpace(s[st + |w|]))
  }

  /** Once the whole line is blanked, every argument found in it reads back as a C string. */
  lemma ArgReadsBack(b0: seq<char>, st: nat, w: string)
    requires ArgAt(CStr(b0, 0), st, w) && IsWord(w)
    ensures st <= |b0| && CStr(Blank(b0, |CStr(b0, 0)|), st) == w
  {
    var s := CStr(b0, 0);
    var b := Blank(b0, |s|);
    var e := st + |w|;
    assert b[st..e] == w by {
      forall j | st <= j < e ensures b[j] == w[j - st] {
        assert s[j] == w[j - st];
      }
    }
    assert '\0' !in w by {
      forall j | 0 <= j < |w| ensures w[j] != '\0' {
        assert w[j] == s[st + j];
      }
    }
    CStrOfRun(b, st, w);
  }

  /** At or past the blanking limit the buffer still holds the line's own characters, so
      the line ends exactly where the buffer ends or holds a NUL. */
  lemma BlankAt(b0: seq<char>, s: string, limit: nat, p: nat)
    requires s == CStr(b0, 0) && limit <= p <= |s|
    ensures p < |b0| ==> Blank(b0, limit)[p] == b0[p]
    ensures (p < |b0| && Blank(b0, limit)[p] != '\0') <==> p < |s|
    ensures p < |s| ==> b0[p] == s[p]
  {
    if p < |s| {
      assert s[p] in s;
    }
  }

  /** The whitespace-gobbling loop of `runcmd`: overwrites whitespace with NUL from `pos` up
      to the next argument or the end of the line. */
  method SkipBlanks(buf: array<char>, ghost b0: seq<char>, ghost s: string, pos: nat)
    returns (p: nat)
    requires s == CStr(b0, 0) && |b0| == buf.Length
    requires pos <= |s| && buf[..] == Blank(b0, pos)
    modifies buf
    ensures pos <= p <= |s| && buf[..] == Blank(b0, p)
    ensures p < |s| ==> !IsSpace(s[p])
    ensures forall j :: pos <= j < p ==> IsSpace(s[j])
  {
    p := pos;
    BlankAt(b0, s, p, p);
    while p < buf.Length && buf[p] != '\0' && IsSpace(buf[p])
      invariant pos <= p <= |s| && buf[..] == Blank(b0, p)
      invariant p < buf.Length ==> buf[p] == b0[p]
      invariant (p < buf.Length && buf[p] != '\0') <==> p < |s|
      invariant p < |s| ==> b0[p] == s[p]
      invariant forall j :: pos <= j < p ==> IsSpace(s[j])
      decreases |s| - p
    {
      BlankStep(b0, p);
      buf[p] := '\0';
      p := p + 1;
      BlankAt(b0, s, p, p);
    }
  }

  /** The argument-scanning loop of `runcmd`: the end of the run of non-whitespace that
      starts at `start`. */
  method ScanWord(buf: array<char>, ghost b0: seq<char>, ghost s: string, start: nat) returns (p: nat)
    requires s == CStr(b0, 0) && |b0| == buf.Length
    requires start < |s| && !IsSpace(s[start]) && buf[..] == Blank(b0, start)
    ensures start < p <= |s| && (p == |s| || IsSpace(s[p]))
    ensures forall j :: start <= j < p ==> !IsSpace(s[j])
  {
    p := start;
    BlankAt(b0, s, start, p);
    while p < buf.Length && buf[p] != '\0' && !IsSpace(buf[p])
      invariant start <= p <= |s|
      invariant p < buf.Length ==> buf[p] == b0[p]
      invariant (p < buf.Length && buf[p] != '\0') <==> p < |s|
      invariant p < |s| ==> b0[p] == s[p]
      invariant forall j :: start <= j < p ==> !IsSpace(s[j])
      decreases |s| - p
    {
      p := p + 1;
      BlankAt(b0, s, start, p);
    }
  }

  /** Blanking stops at characters that are not whitespace. */
  lemma BlankWord(b0: seq<char>, s: string, start: nat, p: nat)
    requires s == CStr(b0, 0) && start <= p <= |s|
    requires forall j :: start <= j < p ==> !IsSpace(s[j])
    ensures Blank(b0, p) == Blank(b0, start)
  {
    forall j | start <= j < p ensures b0[j] == s[j] {
      BlankAt(b0, s, j, j);
    }
  }

  /** `argv` once the arguments starting at `starts` are recorded: NULL after them. */
  function Slots(starts: seq<nat>): (r: seq<Option<nat>>)
    requires |starts| <= MAXARGS
    ensures |r| == MAXARGS
  {
    seq(MAXARGS, i requires 0 <= i < MAXARGS => if i < |starts| then Some(starts[i]) else None)
  }

  lemma SlotsSnoc(starts: seq<nat>, x: nat)
    requires |starts| < MAXARGS
    ensures Slots(starts)[|starts| := Some(x)] == Slots(starts + [x])
  {
  }

  /** Argument `i` of `toks` starts at offset `starts[i]` of line `s`. */
  ghost predicate Found(s: string, starts: seq<nat>, toks: seq<string>) {
    |starts| == |toks| && forall i :: 0 <= i < |toks| ==> ArgAt(s, starts[i], toks[i])
  }

  lemma FoundSnoc(s: string, starts: seq<nat>, toks: seq<string>, start: nat, p: nat)
    requires Found(s, starts, toks)
    requires start < p <= |s| && (p == |s| || IsSpace(s[p]))
    ensures Found(s, starts + [start], toks + [s[start..p]])
  {
    var starts', toks' := starts + [start], toks + [s[start..p]];
    forall i | 0 <= i < |toks'|
      ensures ArgAt(s, starts'[i], toks'[i])
    {
      if i < |toks| {
        assert starts'[i] == starts[i] && toks'[i] == toks[i];
      }
    }
  }

  /** Regrouping the arguments found so far, the one just scanned and the rest. */
  lemma SnocAssoc<T>(xs: seq<T>, x: T, ys: seq<T>)
    ensures (xs + [x]) + ys == xs + ([x] + ys)
  {
  }

  /** Once the whole line is blanked, every recorded argument reads back as a C string. */
  lemma AllReadBack(b0: seq<char>, starts: seq<nat>, toks: seq<string>)
    requires Found(CStr(b0, 0), starts, toks)
    requires forall i :: 0 <= i < |toks| ==> IsWord(toks[i])
    ensures forall i :: 0 <= i < |toks| ==>
      starts[i] <= |b0| && CStr(Blank(b0, |CStr(b0, 0)|), starts[i]) == toks[i]
  {
    forall i | 0 <= i < |toks|
      ensures starts[i] <= |b0| && CStr(Blank(b0, |CStr(b0, 0)|), starts[i]) == toks[i]
    {
      ArgReadsBack(b0, starts[i], toks[i]);
    }
  }

  /** How many more arguments fit in `argv` after `toks`, leaving its NULL terminator. */
  function Room(toks: seq<string>): nat {
    if |toks| < MAXARGS then MAXARGS - 1 - |toks| else 0
  }

  /** The parser's progress through line `s`: up to offset `pos` it has found the
      arguments `toks`, starting at `starts`, and what is left of the line holds the rest. */
  ghost predicate Scanned(s: string, pos: nat, starts: seq<nat>, toks: seq<string>) {
    && |toks| < MAXARGS
    && pos <= |s|
    && toks + Tokens(s[pos..]) == Tokens(s)
    && pos + Stop(s[pos..], Room(toks)) == Stop(s, MAXARGS - 1)
    && Found(s, starts, toks)
  }

  lemma ScanStart(s: string)
    ensures Scanned(s, 0, [], [])
  {
    assert s[0..] == s;
  }

  /** Gobbling whitespace keeps the parser's progress. */
  lemma ScanBlanks(s: string, pos: nat, p: nat, starts: seq<nat>, toks: seq<string>)
    requires Scanned(s, pos, starts, toks) && pos <= p <= |s|
    requires forall j :: pos <= j < p ==> IsSpace(s[j])
    ensures Scanned(s, p, starts, toks)
  {
    BlanksKeepTokens(s, pos, p, toks);
    BlanksKeepStop(s, pos, p, toks);
  }

  lemma BlanksKeepTokens(s: string, pos: nat, p: nat, toks: seq<string>)
    requires pos <= p <= |s| && toks + Tokens(s[pos..]) == Tokens(s)
    requires forall j :: pos <= j < p ==> IsSpace(s[j])
    ensures toks + Tokens(s[p..]) == Tokens(s)
  {
    SkipSpaces(s, pos, p, 0);
  }

  lemma BlanksKeepStop(s: string, pos: nat, p: nat, toks: seq<string>)
    requires |toks| < MAXARGS && pos <= p <= |s|
    requires pos + Stop(s[pos..], Room(toks)) == Stop(s, MAXARGS - 1)
    requires forall j :: pos <= j < p ==> IsSpace(s[j])
    ensures p + Stop(s[p..], Room(toks)) == Stop(s, MAXARGS - 1)
  {
    SkipSpaces(s, pos, p, Room(toks));
  }

  /** Scanning past an argument that fits records it. */
  lemma ScanWordStep(s: string, start: nat, p: nat, starts: seq<nat>, toks: seq<string>)
    requires Scanned(s, start, starts, toks) && |toks| < MAXARGS - 1
    requires start < p <= |s| && (p == |s| || IsSpace(s[p]))
    requires forall j :: start <= j < p ==> !IsSpace(s[j])
    ensures Scanned(s, p, starts + [start], toks + [s[start..p]])
  {
    WordKeepsTokens(s, start, p, toks);
    WordKeepsStop(s, start, p, toks);
    FoundSnoc(s, starts, toks, start, p);
  }

  lemma WordKeepsTokens(s: string, start: nat, p: nat, toks: seq<string>)
    requires start < p <= |s| && (p == |s| || IsSpace(s[p]))
    requires forall j :: start <= j < p ==> !IsSpace(s[j])
    requires toks + Tokens(s[start..]) == Tokens(s)
    ensures (toks + [s[start..p]]) + Tokens(s[p..]) == Tokens(s)
  {
    TakeWord(s, start, p, 1);
    SnocAssoc(toks, s[start..p], Tokens(s[p..]));
  }

  lemma WordKeepsStop(s: string, start: nat, p: nat, toks: seq<string>)
    requires |toks| < MAXARGS - 1
    requires start < p <= |s| && (p == |s| || IsSpace(s[p]))
    requires forall j :: start <= j < p ==> !IsSpace(s[j])
    requires start + Stop(s[start..], Room(toks)) == Stop(s, MAXARGS - 1)
    ensures p + Stop(s[p..], Room(toks + [s[start..p]])) == Stop(s, MAXARGS - 1)
  {
    assert Room(toks + [s[start..p]]) == Room(toks) - 1;
    TakeWord(s, start, p, Room(toks));
  }

  /** An argument that begins when fifteen are recorded is one too many; the parser stops
      at its first character. */
  lemma ScanFull(s: string, pos: nat, starts: seq<nat>, toks: seq<string>)
    requires Scanned(s, pos, starts, toks) && |toks| == MAXARGS - 1
    requires pos < |s| && !IsSpace(s[pos])
    ensures |Tokens(s)| >= MAXARGS && Stop(s, MAXARGS - 1) == pos
  {
    StopAtEnd(s, MAXARGS - 1);
  }

  /** At the end of the line the recorded arguments are all of them. */
  lemma ScanDone(s: string, starts: seq<nat>, toks: seq<string>)
    requires Scanned(s, |s|, starts, toks)
    ensures toks == Tokens(s) && Stop(s, MAXARGS - 1) == |s| && |Tokens(s)| < MAXARGS
  {
    assert s[|s|..] == [];
    StopAtEnd(s, MAXARGS - 1);
  }

  /** Slot `i` of `av` holds the offset at which argument `i` of `toks` reads back from `b`. */
  ghost predicate ReadsBack(b: seq<char>, av: seq<Option<nat>>, toks: seq<string>) {
    |av| == |toks| &&
    forall i :: 0 <= i < |toks| ==> av[i].Some? && av[i].value <= |b| && CStr(b, av[i].value) == toks[i]
  }

  /** When the end of the line is reached: every argument is recorded, `argv` is NULL right
      after the last one, and each recorded start reads back as its argument. */
  lemma ParseResult(b0: seq<char>, s: string, starts: seq<nat>, toks: seq<string>, av: seq<Option<nat>>)
    requires s == CStr(b0, 0) && Scanned(s, |s|, starts, toks) && av == Slots(starts)
    ensures toks == Tokens(s) && Stop(s, MAXARGS - 1) == |s| && |toks| < MAXARGS
    ensures av[|toks|] == None
    ensures ReadsBack(Blank(b0, |s|), av[..|toks|], toks)
  {
    ScanDone(s, starts, toks);
    TokensAreWords(s);
    AllReadBack(b0, starts, toks);
    forall i | 0 <= i < |toks|
      ensures av[i] == Some(starts[i])
    {
    }
  }

  /** Saves the argument that starts at `start` in `argv[argc]` and scans past it. */
  method SaveArg(buf: array<char>, ghost b0: seq<char>, ghost s: string, argv: array<Option<nat>>,
                 argc: nat, start: nat, ghost starts: seq<nat>, ghost toks: seq<string>)
    returns (p: nat)
    requires s == CStr(b0, 0) && |b0| == buf.Length && argv.Length == MAXARGS
    requires Scanned(s, start, starts, toks) && argc == |toks| < MAXARGS - 1
    requires argv[..] == Slots(starts) && buf[..] == Blank(b0, start)
    requires start < |s| && !IsSpace(s[start])
    modifies argv
    ensures start < p <= |s| && buf[..] == Blank(b0, p)
    ensures Scanned(s, p, starts + [start], toks + [s[start..p]])
    ensures argv[..] == Slots(starts + [start])
  {
    SlotsSnoc(starts, start);
    argv[argc] := Some(start);
    p := ScanWord(buf, b0, s, start);
    ScanWordStep(s, start, p, starts, toks);
    BlankWord(b0, s, start, p);
  }

  /** The tokenizing loop of `runcmd`: blanks whitespace in place and records where each
      argument starts in `argv`; stops at the end of the line or when a sixteenth argument
      begins. */
  method ScanArgs(buf: array<char>, argv: array<Option<nat>>)
    returns (argc: nat, tooMany: bool, ghost starts: seq<nat>, ghost toks: seq<string>)
    requires argv.Length == MAXARGS && argv[..] == Slots([])
    modifies buf, argv
    ensures var s := CStr(old(buf[..]), 0);
      && buf[..] == Blank(old(buf[..]), Stop(s, MAXARGS - 1))
      && tooMany == (|Tokens(s)| >= MAXARGS)
      && (!tooMany ==> Scanned(s, |s|, starts, toks) && argc == |toks| && argv[..] == Slots(starts))
  {
    ghost var b0 := buf[..];
    ghost var s := CStr(b0, 0);
    argc := 0;
    tooMany := false;
    var pos: nat := 0;
    toks, starts := [], [];
    ScanStart(s);
    while true
      invariant Scanned(s, pos, starts, toks) && argc == |toks|
      invariant buf[..] == Blank(b0, pos)
      invariant argv[..] == Slots(starts)
      decreases |s| - pos
    {
      ghost var from := pos;
      pos := SkipBlanks(buf, b0, s, pos);
      ScanBlanks(s, from, pos, starts, toks);
      BlankAt(b0, s, pos, pos);
      if !(pos < buf.Length && buf[pos] != '\0') {
        break;
      }
      if argc == MAXARGS - 1 {
        ScanFull(s, pos, starts, toks);
        tooMany := true;
        return;
      }
      var start := pos;
      pos := SaveArg(buf, b0, s, argv, argc, start, starts, toks);
      argc := argc + 1;
      toks := toks + [s[start..pos]];
      starts := starts + [start];
    }
    ScanDone(s, starts, toks);
  }

  /** `runcmd`'s parse of its line: `argv` NULL-terminated at `argc`, and whitespace in
      the buffer overwritten with NUL up to where the scan stops. */
  method Parse(buf: array<char>) returns (argc: nat, argv: array<Option<nat>>, tooMany: bool)
    modifies buf
    ensures fresh(argv) && argv.Length == MAXARGS
    ensures var s := CStr(old(buf[..]), 0);
      && buf[..] == Blank(old(buf[..]), Stop(s, MAXARGS - 1))
      && tooMany == (|Tokens(s)| >= MAXARGS)
      && (!tooMany ==>
            && argc == |Tokens(s)| && argv[argc] == None
            && ReadsBack(buf[..], argv[..argc], Tokens(s)))
  {
    ghost var b0 := buf[..];
    ghost var s := CStr(b0, 0);
    argv := new Option<nat>[MAXARGS](_ => None);
    argv[0] := None;
    assert argv[..] == Slots([]);
    ghost var starts, toks;
    argc, tooMany, starts, toks := ScanArgs(buf, argv);
    if tooMany {
      return;
    }
    ghost var av := argv[..];
    ParseResult(b0, s, starts, toks, av);
    argv[argc] := None;
    assert argv[..] == av;
  }

  // ---------------------------------------------------------------- the command table

  /** The function a table entry points to. */
  datatype Handler = HelpCmd | KernInfoCmd | BacktraceCmd | ShowMappingsCmd | SetPermCmd | DumpVmCmd

  datatype Command = Command(name: string, desc: string, func: Handler)

  const COMMANDS: seq<Command> := [
    Command("help", "Display this list of commands", HelpCmd),
    Command("kerninfo", "Display information about the kernel", KernInfoCmd),
    Command("backtrace", "Display stack backtrace", BacktraceCmd),
    Command("showmappings", "Display memory mapping for a single address or a range of or virtual/linear addresses in the currently active address space", ShowMappingsCmd),
    Command("setperm", "Set permission bit of a mapping", SetPermCmd),
    Command("dumpvm", "Dump memory content for given virtual address range", DumpVmCmd)
  ]

  function LookupFrom(table: seq<Command>, name: string, i: nat): (r: Option<nat>)
    requires i <= |table|
    ensures r.Some? ==> i <= r.value < |table| && table[r.value].name == name
    ensures r.Some? ==> forall j :: i <= j < r.value ==> table[j].name != name
    ensures r.None? ==> forall j :: i <= j < |table| ==> table[j].name != name
    decreases |table| - i
  {
    if i == |table| then None
    else if table[i].name == name then Some(i)
    else LookupFrom(table, name, i + 1)
  }

  /** The first entry of `table` whose name is `name`, by exact comparison. */
  function Lookup(table: seq<Command>, name: string): (r: Option<nat>)
    ensures r.Some? ==> r.value < |table| && table[r.value].name == name
    ensures r.Some? ==> forall j :: 0 <= j < r.value ==> table[j].name != name
    ensures r.None? <==> forall j :: 0 <= j < |table| ==> table[j].name != name
  {
    LookupFrom(table, name, 0)
  }

  /** The names in the monitor's table are distinct, so each one finds its own entry. */
  lemma LookupEachName(i: nat)
    requires i < |COMMANDS|
    ensures Lookup(COMMANDS, COMMANDS[i].name) == Some(i)
  {
    var r := Lookup(COMMANDS, COMMANDS[i].name);
    assert r.Some? && r.value <= i;
    NameLengths();
    assert |COMMANDS[r.value].name| == |COMMANDS[i].name|;
  }

  /** Every name in the monitor's table is a single possible argument. */
  lemma NamesAreWords(i: nat)
    requires i < |COMMANDS|
    ensures IsWord(COMMANDS[i].name)
  {
    var w := COMMANDS[i].name;
    LiteralWords();
    if i == 0 {
      assert w == "help";
    } else if i == 1 {
      assert w == "kerninfo";
    } else if i == 2 {
      assert w == "backtrace";
    } else if i == 3 {
      assert w == "showmappings";
    } else if i == 4 {
      assert w == "setperm";
    } else {
      assert w == "dumpvm";
    }
  }

  lemma LiteralWords()
    ensures IsWord("help") && IsWord("kerninfo") && IsWord("backtrace")
    ensures IsWord("showmappings") && IsWord("setperm") && IsWord("dumpvm")
  {
  }

  /** The names in the monitor's table have distinct lengths. */
  lemma NameLengths()
    ensures forall j, k :: 0 <= j < |COMMANDS| && 0 <= k < |COMMANDS| && |COMMANDS[j].name| == |COMMANDS[k].name| ==> j == k
  {
    assert seq(|COMMANDS|, j requires 0 <= j < |COMMANDS| => |COMMANDS[j].name|) == [4, 8, 9, 12, 7, 6];
  }

  // ---------------------------------------------------------------- console texts

  const TOO_MANY_ARGS := "Too many arguments (max 16)\n"

  function UnknownCommandText(name: string): string {
    "Unknown command '" + name + "'\n"
  }

  /** The `%s - %s` line `mon_help` prints for an entry. */
  function HelpLine(c: Command): string {
    c.name + " - " + c.desc
  }

  function HelpLines(table: seq<Command>): (ls: seq<string>)
    ensures |ls| == |table|
  {
    seq(|table|, i requires 0 <= i < |table| => HelpLine(table[i]))
  }

  /** What `mon_help` prints. */
  function HelpText(table: seq<Command>): string {
    Lines(HelpLines(table))
  }

  /** When no name or description holds a newline, `mon_help` prints one line per table
      entry, in table order, and nothing else. */
  lemma HelpOneLinePerEntry(table: seq<Command>)
    requires forall i :: 0 <= i < |table| ==> '\n' !in table[i].name && '\n' !in table[i].desc
    ensures Split(HelpText(table), '\n') == HelpLines(table) + [""]
  {
    forall i | 0 <= i < |table| ensures '\n' !in HelpLines(table)[i] {
      assert HelpLines(table)[i] == table[i].name + " - " + table[i].desc;
    }
    SplitLines(HelpLines(table));
  }

  /** The first word of each line of the monitor's help is the command that runs that entry. */
  lemma HelpNamesDispatch(i: nat)
    requires i < |COMMANDS|
    ensures var ws := Tokens(HelpLines(COMMANDS)[i]); |ws| > 0 && Lookup(COMMANDS, ws[0]) == Some(i)
  {
    NamesAreWords(i);
    LookupEachName(i);
    HelpNameDispatches(COMMANDS, i);
  }

  /** In any table, the first word of an entry's help line is that entry's name, so when the
      name is a word that finds its own entry, the help line leads back to the entry. */
  lemma HelpNameDispatches(table: seq<Command>, i: nat)
    requires i < |table| && IsWord(table[i].name) && Lookup(table, table[i].name) == Some(i)
    ensures var ws := Tokens(HelpLines(table)[i]); |ws| > 0 && Lookup(table, ws[0]) == Some(i)
  {
    var c := table[i];
    assert HelpLines(table)[i] == c.name + " " + ("- " + c.desc);
    TokensAppend(c.name, "- " + c.desc);
    TokensWord(c.name);
  }

  /** `print_perm`: user, writable and present, each as its letter or `-`. */
  function PermString(pte: Word): (r: string)
    ensures |r| == 3
    ensures r[0] == (if Has(pte, PTE_U) then 'U' else '-')
    ensures r[1] == (if Has(pte, PTE_W) then 'W' else '-')
    ensures r[2] == (if Has(pte, PTE_P) then 'P' else '-')
  {
    (if Has(pte, PTE_U) then "U" else "-") + (if Has(pte, PTE_W) then "W" else "-")
      + (if Has(pte, PTE_P) then "P" else "-")
  }

  /** The bits a `print_perm` string shows, read back from its letters. */
  function PermBits(r: string): Word
    requires |r| == 3
  {
    (if r[0] == 'U' then PTE_U else 0) | (if r[1] == 'W' then PTE_W else 0) | (if r[2] == 'P' then PTE_P else 0)
  }

  /** `print_perm` loses exactly the bits other than user, writable and present. */
  lemma PermStringRoundTrip(pte: Word)
    ensures PermBits(PermString(pte)) == pte & (PTE_U | PTE_W | PTE_P)
  {
    var r := PermString(pte);
    assert (if r[0] == 'U' then PTE_U else 0) == pte & PTE_U;
    assert (if r[1] == 'W' then PTE_W else 0) == pte & PTE_W;
    assert (if r[2] == 'P' then PTE_P else 0) == pte & PTE_P;
  }

  /** The bits `print_flags` shows, in its order, and their letters. */
  const FLAG_BITS: seq<Word> := [PTE_G, PTE_PS, PTE_D, PTE_A, PTE_PCD, PTE_PWT, PTE_U, PTE_W, PTE_P]
  const FLAG_NAMES: seq<string> := ["G", "PS", "D", "A", "PCD", "PWT", "U", "W", "P"]

  /** Field `i` of `print_flags`' output: the flag's letters when its bit is set, else `-`. */
  function FlagField(pte: Word, i: nat): (f: string)
    requires i < |FLAG_BITS|
    ensures ',' !in f
  {
    if Has(pte, FLAG_BITS[i]) then FLAG_NAMES[i] else "-"
  }

  /** The fields of `print_flags`' output, in its order. */
  function FlagFields(pte: Word): (fs: seq<string>)
    ensures |fs| == |FLAG_BITS|
  {
    seq(|FLAG_BITS|, i requires 0 <= i < |FLAG_BITS| => FlagField(pte, i))
  }

  /** `print_flags`: the fields with a comma between each two. */
  function FlagsString(pte: Word): string {
    Join(FlagFields(pte), ',')
  }

  /** `print_flags` prints exactly nine comma-separated fields; field `i` is flag `i`'s
      letters when its bit is set and `-` otherwise. */
  lemma FlagsFields(pte: Word)
    ensures var fs := Split(FlagsString(pte), ',');
      && |fs| == |FLAG_BITS|
      && forall i :: 0 <= i < |FLAG_BITS| ==> fs[i] == (if Has(pte, FLAG_BITS[i]) then FLAG_NAMES[i] else "-")
  {
    SplitJoin(FlagFields(pte), ',');
  }

  const SHOW_USAGE_1 := "Usage: showmappings start_addr [end_addr]\n"
  const SHOW_USAGE_2 := "       end_addr will default to start_addr.\n"
  const SHOW_HEADER := "va            pa            perm(User, Writeable, Present)\n"

  /** `pgdir_walk(kern_pgdir, va, 0)` and a read of the entry: None where there is no page table. */
  function Walk(pgdir: map<nat, Word>, va: nat): (r: Option<Word>)
    ensures r.Some? <==> PageNumber(va) in pgdir
  {
    if PageNumber(va) in pgdir then Some(pgdir[PageNumber(va)]) else None
  }

  /** The line `mon_showmappings` prints for the page at `va`. */
  function PageLine(pgdir: map<nat, Word>, va: nat): string
    requires va < ADDR_SPACE
  {
    var pte := Walk(pgdir, va);
    if pte.None? || !Has(pte.value, PTE_P) then "0x" + Hex8(va) + "    no mappings\n"
    else "0x" + Hex8(va) + "    0x" + Hex8((pte.value & !0x3FF) as nat) + "    " + PermString(pte.value) + "\n"
  }

  /** `num_pages`: the unsigned 32-bit difference of the rounded-down addresses, in pages, plus one. */
  function NumPages(start: nat, end: nat): (n: nat)
    requires start < ADDR_SPACE && end < ADDR_SPACE
    ensures 1 <= n <= NVPAGES
  {
    ((RoundDown(end) - RoundDown(start)) % ADDR_SPACE) / PGSIZE + 1
  }

  /** `base_addr` after `j` steps of `base_addr += PGSIZE` from `first`, in 32-bit arithmetic. */
  function PageAddr(first: nat, j: nat): (a: nat)
    requires first < ADDR_SPACE
    ensures a < ADDR_SPACE
  {
    if j == 0 then first else (PageAddr(first, j - 1) + PGSIZE) % ADDR_SPACE
  }

  /** While the sum stays below 2^32, `j` steps advance by exactly `j` pages. */
  lemma {:induction false} PageAddrNoWrap(first: nat, j: nat)
    requires first + j * PGSIZE < ADDR_SPACE
    ensures PageAddr(first, j) == first + j * PGSIZE
  {
    if j > 0 {
      PageAddrNoWrap(first, j - 1);
    }
  }

  /** One more step of `mon_showmappings`' loop: the next address and one more line. */
  lemma NextPage(pgdir: map<nat, Word>, first: nat, i: nat)
    requires first < ADDR_SPACE
    ensures PageAddr(first, i + 1) == (PageAddr(first, i) + PGSIZE) % ADDR_SPACE
    ensures PageLines(pgdir, first, i + 1) == PageLines(pgdir, first, i) + PageLine(pgdir, PageAddr(first, i))
  {
  }

  /** The lines printed for `n` pages from `first`. */
  function PageLines(pgdir: map<nat, Word>, first: nat, n: nat): string
    requires first < ADDR_SPACE
  {
    if n == 0 then "" else PageLines(pgdir, first, n - 1) + PageLine(pgdir, PageAddr(first, n - 1))
  }

  /** What `mon_showmappings` prints. */
  function ShowMappingsText(argv: seq<string>, pgdir: map<nat, Word>): string {
    if |argv| < 2 then SHOW_USAGE_1 + SHOW_USAGE_2
    else
      var start := ToUintptr(StrToL(argv[1]));
      var end := if |argv| > 2 then ToUintptr(StrToL(argv[2])) else start;
      SHOW_HEADER + PageLines(pgdir, RoundDown(start), NumPages(start, end))
  }

  /** For start <= end, the pages listed are exactly the page-aligned addresses from
      ROUNDDOWN(start) to ROUNDDOWN(end), in increasing order: every page the range touches,
      and no other. */
  lemma ShowMappingsRange(start: nat, end: nat)
    requires start <= end < ADDR_SPACE
    ensures NumPages(start, end) == (RoundDown(end) - RoundDown(start)) / PGSIZE + 1
    ensures var first, n := RoundDown(start), NumPages(start, end);
      forall j :: 0 <= j < n ==> PageAddr(first, j) == first + j * PGSIZE && PageAddr(first, j) % PGSIZE == 0
    ensures PageAddr(RoundDown(start), NumPages(start, end) - 1) == RoundDown(end)
    ensures var first, n := RoundDown(start), NumPages(start, end);
      forall a :: start <= a <= end ==>
        (RoundDown(a) - first) / PGSIZE < n && PageAddr(first, (RoundDown(a) - first) / PGSIZE) == RoundDown(a)
  {
    NumPagesSpan(start, end);
    var first := RoundDown(start);
    var d := RoundDown(end) - first;
    PagesAligned(first, d);
    PagesCover(start, end);
  }

  /** Without wrap-around, `num_pages` counts the pages from ROUNDDOWN(start) to ROUNDDOWN(end). */
  lemma NumPagesSpan(start: nat, end: nat)
    requires start <= end < ADDR_SPACE
    ensures NumPages(start, end) == (RoundDown(end) - RoundDown(start)) / PGSIZE + 1
    ensures (RoundDown(end) - RoundDown(start)) % PGSIZE == 0
  {
    RoundDownSpan(start, end);
    var d := RoundDown(end) - RoundDown(start);
    assert d < ADDR_SPACE;
    assert d % ADDR_SPACE == d;
  }

  /** Each of the steps over an aligned span lands on the next page. */
  lemma PagesAligned(first: nat, d: nat)
    requires first % PGSIZE == 0 && d % PGSIZE == 0 && first + d < ADDR_SPACE
    ensures forall j :: 0 <= j <= d / PGSIZE ==> PageAddr(first, j) == first + j * PGSIZE && PageAddr(first, j) % PGSIZE == 0
    ensures PageAddr(first, d / PGSIZE) == first + d
  {
    forall j | 0 <= j <= d / PGSIZE
      ensures PageAddr(first, j) == first + j * PGSIZE && PageAddr(first, j) % PGSIZE == 0
    {
      PageStep(first, d, j);
    }
    PageStep(first, d, d / PGSIZE);
  }

  /** The page of every address in the range is among the steps. */
  lemma PagesCover(start: nat, end: nat)
    requires start <= end < ADDR_SPACE
    ensures var first, d := RoundDown(start), RoundDown(end) - RoundDown(start);
      forall a :: start <= a <= end ==>
        (RoundDown(a) - first) / PGSIZE <= d / PGSIZE && PageAddr(first, (RoundDown(a) - first) / PGSIZE) == RoundDown(a)
  {
    var first := RoundDown(start);
    RoundDownSpan(start, end);
    var d := RoundDown(end) - first;
    forall a | start <= a <= end
      ensures (RoundDown(a) - first) / PGSIZE <= d / PGSIZE && PageAddr(first, (RoundDown(a) - first) / PGSIZE) == RoundDown(a)
    {
      RoundDownSpan(start, a);
      RoundDownSpan(a, end);
      PageOf(first, d, RoundDown(a) - first);
    }
  }

  /** Rounding down keeps order, and two rounded-down addresses are whole pages apart. */
  lemma RoundDownSpan(x: nat, y: nat)
    requires x <= y
    ensures RoundDown(x) <= RoundDown(y) && (RoundDown(y) - RoundDown(x)) % PGSIZE == 0
  {
    var i, j := RoundDown(x) / PGSIZE, RoundDown(y) / PGSIZE;
    assert RoundDown(x) == i * PGSIZE && RoundDown(y) == j * PGSIZE;
    assert i <= j;
    assert RoundDown(y) - RoundDown(x) == (j - i) * PGSIZE;
  }

  /** Within a page-aligned span of `d` bytes from an aligned `first`, step `j` lands on the
      `j`-th page. */
  lemma PageStep(first: nat, d: nat, j: nat)
    requires first % PGSIZE == 0 && d % PGSIZE == 0 && first + d < ADDR_SPACE && j <= d / PGSIZE
    ensures PageAddr(first, j) == first + j * PGSIZE && PageAddr(first, j) % PGSIZE == 0
    ensures j == d / PGSIZE ==> PageAddr(first, j) == first + d
  {
    assert j * PGSIZE <= d;
    PageAddrNoWrap(first, j);
  }

  /** An aligned offset `da` within the span is reached at step `da / PGSIZE`. */
  lemma PageOf(first: nat, d: nat, da: nat)
    requires first % PGSIZE == 0 && d % PGSIZE == 0 && first + d < ADDR_SPACE
    requires da % PGSIZE == 0 && da <= d
    ensures da / PGSIZE <= d / PGSIZE && PageAddr(first, da / PGSIZE) == first + da
  {
    assert (da / PGSIZE) * PGSIZE == da;
    PageStep(first, d, da / PGSIZE);
  }

  const SETPERM_USAGE_1 := "Usage: setperm virtual_addr U|W 1|0\n"
  const SETPERM_USAGE_2 := "       U: user level access\n"
  const SETPERM_USAGE_3 := "       W: writable access\n"
  const SETPERM_USAGE_4 := "       1|0: set|clear the bit\n"
  const INVALID_ADDRESS := "Invalid address, page not exists.\n"

  /** `*pte |= flag` when `on`, `*pte &= ~flag` otherwise: the in-place update `mon_setperm` makes. */
  function SetBit(pte: Word, flag: Word, on: bool): Word {
    if on then pte | flag else pte & !flag
  }

  /** The bit `setperm` edits: PTE_U when the second argument starts with `U`, else PTE_W. */
  function SetPermFlag(arg: string): Word {
    if At(arg, 0) == 'U' then PTE_U else PTE_W
  }

  /** A present entry exists for `va`. */
  predicate Editable(pgdir: map<nat, Word>, va: nat) {
    var pte := Walk(pgdir, va);
    pte.Some? && Has(pte.value, PTE_P)
  }

  /** The kernel page table after `mon_setperm`. */
  function SetPermPgdir(argv: seq<string>, pgdir: map<nat, Word>): map<nat, Word> {
    if |argv| != 4 then pgdir
    else
      var va := ToUintptr(StrToL(argv[1]));
      if !Editable(pgdir, va) then pgdir
      else pgdir[PageNumber(va) := SetBit(pgdir[PageNumber(va)], SetPermFlag(argv[2]), At(argv[3], 0) == '1')]
  }

  /** What `mon_setperm` prints. */
  function SetPermText(argv: seq<string>, pgdir: map<nat, Word>): string {
    if |argv| != 4 then SETPERM_USAGE_1 + SETPERM_USAGE_2 + SETPERM_USAGE_3 + SETPERM_USAGE_4
    else if Editable(pgdir, ToUintptr(StrToL(argv[1]))) then ""
    else INVALID_ADDRESS
  }

  /** `after` is `before` with `flag` set (`on`) or cleared and every other bit kept; it
      stays present. */
  predicate BitEdit(before: Word, after: Word, flag: Word, on: bool) {
    && after & !flag == before & !flag
    && (after & flag == flag <==> on)
    && Has(after, PTE_P)
  }

  /** `|=` of a bit other than PTE_P. */
  lemma SetWord(pte: Word, flag: Word)
    requires Has(pte, PTE_P) && flag & PTE_P == 0
    ensures BitEdit(pte, pte | flag, flag, true)
  {
  }

  /** `&= ~` of a non-empty mask without PTE_P. */
  lemma ClearWord(pte: Word, flag: Word)
    requires Has(pte, PTE_P) && flag & PTE_P == 0 && flag != 0
    ensures BitEdit(pte, pte & !flag, flag, false)
  {
  }

  /** `after` is `before` with `flag` of the one entry `vpn` set (`on`) or cleared, and
      nothing else changed; that entry stays present. */
  ghost predicate OneBitEdit(before: map<nat, Word>, after: map<nat, Word>, vpn: nat, flag: Word, on: bool) {
    && vpn in before && vpn in after
    && after.Keys == before.Keys
    && (forall v :: v in before && v != vpn ==> after[v] == before[v])
    && BitEdit(before[vpn], after[vpn], flag, on)
  }

  /** Editing the entry of a present page in place is a one-bit edit of the table. */
  lemma EditOneEntry(pgdir: map<nat, Word>, vpn: nat, flag: Word, on: bool)
    requires vpn in pgdir && Has(pgdir[vpn], PTE_P) && flag & PTE_P == 0 && flag != 0
    ensures OneBitEdit(pgdir, pgdir[vpn := SetBit(pgdir[vpn], flag, on)], vpn, flag, on)
  {
    if on {
      SetWord(pgdir[vpn], flag);
    } else {
      ClearWord(pgdir[vpn], flag);
    }
  }

  /** The bit `setperm` edits is not PTE_P. */
  lemma SetPermFlagBit(arg: string)
    ensures SetPermFlag(arg) & PTE_P == 0 && SetPermFlag(arg) != 0
  {
  }

  /** `mon_setperm` changes nothing unless it has three arguments and the address has a
      present entry; then it sets (`1`) or clears (anything else) exactly one bit of that one
      entry: PTE_U when the second argument starts with `U`, PTE_W otherwise. */
  lemma SetPermOneBit(argv: seq<string>, pgdir: map<nat, Word>)
    ensures |argv| != 4 ==> SetPermPgdir(argv, pgdir) == pgdir
    ensures |argv| == 4 && !Editable(pgdir, ToUintptr(StrToL(argv[1]))) ==> SetPermPgdir(argv, pgdir) == pgdir
    ensures |argv| == 4 && Editable(pgdir, ToUintptr(StrToL(argv[1]))) ==>
      OneBitEdit(pgdir, SetPermPgdir(argv, pgdir), PageNumber(ToUintptr(StrToL(argv[1]))),
                 SetPermFlag(argv[2]), At(argv[3], 0) == '1')
  {
    if |argv| == 4 && Editable(pgdir, ToUintptr(StrToL(argv[1]))) {
      SetPermFlagBit(argv[2]);
      EditOneEntry(pgdir, PageNumber(ToUintptr(StrToL(argv[1]))), SetPermFlag(argv[2]), At(argv[3], 0) == '1');
    }
  }

  // ---------------------------------------------------------------- dispatch

  /** How `runcmd` ended. */
  datatype Dispatch = NoCommand | TooManyArgs | UnknownCommand(name: string) | Ran(index: nat, argv: seq<string>)

  /** The decision `runcmd` takes on the arguments of a line. */
  function Outcome(table: seq<Command>, toks: seq<string>): (d: Dispatch)
    ensures d == TooManyArgs <==> |toks| >= MAXARGS
    ensures d == NoCommand <==> toks == []
    ensures d.UnknownCommand? <==>
      0 < |toks| < MAXARGS && forall j :: 0 <= j < |table| ==> table[j].name != toks[0]
    ensures d.UnknownCommand? ==> d.name == toks[0]
    ensures d.Ran? ==>
      && d.argv == toks && 0 < |toks| < MAXARGS
      && d.index < |table| && table[d.index].name == toks[0]
      && forall j :: 0 <= j < d.index ==> table[j].name != toks[0]
  {
    if |toks| >= MAXARGS then TooManyArgs
    else if toks == [] then NoCommand
    else match Lookup(table, toks[0])
      case None => UnknownCommand(toks[0])
      case Some(i) => Ran(i, toks)
  }

  function CommandText(table: seq<Command>, h: Handler, argv: seq<string>, pgdir: map<nat, Word>): string {
    match h
    case HelpCmd => HelpText(table)
    case ShowMappingsCmd => ShowMappingsText(argv, pgdir)
    case SetPermCmd => SetPermText(argv, pgdir)
    case _ => ""
  }

  function CommandPgdir(h: Handler, argv: seq<string>, pgdir: map<nat, Word>): map<nat, Word> {
    if h == SetPermCmd then SetPermPgdir(argv, pgdir) else pgdir
  }

  /** What `runcmd` prints, given how it ended. */
  function Reply(table: seq<Command>, d: Dispatch, pgdir: map<nat, Word>): string {
    match d
    case NoCommand => ""
    case TooManyArgs => TOO_MANY_ARGS
    case UnknownCommand(name) => UnknownCommandText(name)
    case Ran(i, argv) => if i < |table| then CommandText(table, table[i].func, argv, pgdir) else ""
  }

  /** The kernel page table after `runcmd`, given how it ended. */
  function PgdirAfter(table: seq<Command>, d: Dispatch, pgdir: map<nat, Word>): map<nat, Word> {
    if d.Ran? && d.index < |table| then CommandPgdir(table[d.index].func, d.argv, pgdir) else pgdir
  }

  /** The monitor's view of the machine: the kernel page table and the console. */
  class Monitor {
    /** The entries of `kern_pgdir`'s page tables, by virtual page number; a page whose
        page table does not exist has no key. */
    var kernPgdir: map<nat, Word>
    /** Everything printed so far. */
    var console: string
    /** The static command table. */
    const commands: seq<Command>

    constructor(pgdir: map<nat, Word>)
      ensures kernPgdir == pgdir && console == "" && commands == COMMANDS
    {
      kernPgdir := pgdir;
      console := "";
      commands := COMMANDS;
    }

    /** `mon_help`. */
    method Help() returns (r: int)
      modifies this
      ensures r == 0 && kernPgdir == old(kernPgdir)
      ensures console == old(console) + HelpText(commands)
    {
      for i := 0 to |commands|
        invariant kernPgdir == old(kernPgdir)
        invariant console == old(console) + Lines(HelpLines(commands)[..i])
      {
        ghost var before := HelpLines(commands)[..i];
        LinesSnoc(before, HelpLine(commands[i]));
        assert HelpLines(commands)[..i + 1] == before + [HelpLine(commands[i])];
        console := console + HelpLine(commands[i]) + "\n";
      }
      assert HelpLines(commands)[..|commands|] == HelpLines(commands);
      return 0;
    }

    /** `mon_showmappings`. */
    method ShowMappings(argv: seq<string>) returns (r: int)
      modifies this
      ensures r == 0 && kernPgdir == old(kernPgdir)
      ensures console == old(console) + ShowMappingsText(argv, old(kernPgdir))
    {
      ghost var c := console;
      if |argv| < 2 {
        console := console + SHOW_USAGE_1;
        console := console + SHOW_USAGE_2;
        AppendAssoc(c, SHOW_USAGE_1, SHOW_USAGE_2);
        assert console == c + ShowMappingsText(argv, kernPgdir);
        return 0;
      }
      var start := ToUintptr(StrToL(argv[1]));
      var end := if |argv| > 2 then ToUintptr(StrToL(argv[2])) else start;
      console := console + SHOW_HEADER;
      ListPages(RoundDown(start), NumPages(start, end));
      AppendAssoc(c, SHOW_HEADER, PageLines(kernPgdir, RoundDown(start), NumPages(start, end)));
      return 0;
    }

    /** `mon_showmappings`' loop: one line for each of `n` pages from `first` up. */
    method ListPages(first: nat, n: nat)
      requires first < ADDR_SPACE
      modifies this
      ensures kernPgdir == old(kernPgdir)
      ensures console == old(console) + PageLines(kernPgdir, first, n)
    {
      ghost var c := console;
      ghost var i: nat := 0;
      var base, numPages := first, n;
      while numPages > 0
        invariant i + numPages == n
        invariant base == PageAddr(first, i)
        invariant kernPgdir == old(kernPgdir)
        invariant console == c + PageLines(kernPgdir, first, i)
        decreases numPages
      {
        PrintPage(base);
        AppendAssoc(c, PageLines(kernPgdir, first, i), PageLine(kernPgdir, base));
        NextPage(kernPgdir, first, i);
        base := (base + PGSIZE) % ADDR_SPACE;
        numPages := numPages - 1;
        i := i + 1;
      }
    }

    /** The body of `mon_showmappings`' loop: one line for the page at `base`. */
    method PrintPage(base: nat)
      requires base < ADDR_SPACE
      modifies this
      ensures kernPgdir == old(kernPgdir)
      ensures console == old(console) + PageLine(kernPgdir, base)
    {
      ghost var before := console;
      ghost var line := "0x" + Hex8(base);
      console := console + "0x" + Hex8(base);
      AppendAssoc(before, "0x", Hex8(base));
      var pte := Walk(kernPgdir, base);
      if pte.None? || !Has(pte.value, PTE_P) {
        console := console + "    no mappings\n";
        AppendAssoc(before, line, "    no mappings\n");
      } else {
        var frame := Hex8((pte.value & !0x3FF) as nat);
        console := console + "    0x" + frame + "    ";
        AppendAssoc(before, line, "    0x");
        AppendAssoc(before, line + "    0x", frame);
        AppendAssoc(before, line + "    0x" + frame, "    ");
        line := line + "    0x" + frame + "    ";
        console := console + PermString(pte.value);
        AppendAssoc(before, line, PermString(pte.value));
        line := line + PermString(pte.value);
        console := console + "\n";
        AppendAssoc(before, line, "\n");
      }
    }

    /** `mon_setperm`. */
    method SetPerm(argv: seq<string>) returns (r: int)
      modifies this
      ensures r == 0
      ensures kernPgdir == SetPermPgdir(argv, old(kernPgdir))
      ensures console == old(console) + SetPermText(argv, old(kernPgdir))
    {
      if |argv| != 4 {
        ghost var c0 := console;
        console := console + SETPERM_USAGE_1;
        console := console + SETPERM_USAGE_2;
        console := console + SETPERM_USAGE_3;
        console := console + SETPERM_USAGE_4;
        AppendAssoc4(c0, SETPERM_USAGE_1, SETPERM_USAGE_2, SETPERM_USAGE_3, SETPERM_USAGE_4);
        return 0;
      }
      var addr := ToUintptr(StrToL(argv[1]));
      var pte := Walk(kernPgdir, addr);
      if pte.Some? && Has(pte.value, PTE_P) {
        var flag := SetPermFlag(argv[2]);
        if At(argv[3], 0) == '1' {
          kernPgdir := kernPgdir[PageNumber(addr) := SetBit(pte.value, flag, true)];
        } else {
          kernPgdir := kernPgdir[PageNumber(addr) := SetBit(pte.value, flag, false)];
        }
      } else {
        console := console + INVALID_ADDRESS;
      }
      return 0;
    }

    /** The call through a table entry's `func` field. The effects of `mon_kerninfo`,
        `mon_backtrace` and `mon_dumpvm` are not part of this model. */
    method Invoke(h: Handler, argv: seq<string>) returns (r: int)
      modifies this
      ensures r == 0
      ensures kernPgdir == CommandPgdir(h, argv, old(kernPgdir))
      ensures console == old(console) + CommandText(commands, h, argv, old(kernPgdir))
    {
      match h
      case HelpCmd => r := Help();
      case ShowMappingsCmd => r := ShowMappings(argv);
      case SetPermCmd => r := SetPerm(argv);
      case _ => r := 0;
    }

    /** `runcmd`: tokenize the line in `buf` in place, then run the first table entry named
        by the first argument. */
    method RunCmd(buf: array<char>) returns (r: int, outcome: Dispatch)
      modifies this, buf
      ensures r == 0
      ensures var s := CStr(old(buf[..]), 0);
        buf[..] == Blank(old(buf[..]), Stop(s, MAXARGS - 1)) && outcome == Outcome(commands, Tokens(s))
      ensures kernPgdir == PgdirAfter(commands, outcome, old(kernPgdir))
      ensures console == old(console) + Reply(commands, outcome, old(kernPgdir))
    {
      ghost var s := CStr(buf[..], 0);
      var argc, argv, tooMany := Parse(buf);
      if tooMany {
        console := console + TOO_MANY_ARGS;
        return 0, TooManyArgs;
      }
      ghost var toks := Tokens(s);
      if argc == 0 {
        return 0, NoCommand;
      }
      var args := ArgStrings(buf[..], argc, argv, toks);
      r, outcome := Execute(args);
    }

    /** The strings `argv[0..argc]` point at in `line`. */
    static method ArgStrings(line: seq<char>, argc: nat, argv: array<Option<nat>>, ghost toks: seq<string>)
      returns (args: seq<string>)
      requires argc <= argv.Length && ReadsBack(line, argv[..argc], toks)
      ensures args == toks
    {
      args := [];
      for j := 0 to argc
        invariant args == toks[..j]
      {
        assert argv[..argc][j] == argv[j];
        args := args + [CStr(line, argv[j].value)];
        assert toks[..j + 1] == toks[..j] + [toks[j]];
      }
      assert toks[..argc] == toks;
    }

    /** `runcmd`'s lookup: run the first command named `args[0]`, or report the name. */
    method Execute(args: seq<string>) returns (r: int, outcome: Dispatch)
      requires 0 < |args| < MAXARGS
      modifies this
      ensures r == 0 && outcome == Outcome(commands, args)
      ensures kernPgdir == PgdirAfter(commands, outcome, old(kernPgdir))
      ensures console == old(console) + Reply(commands, outcome, old(kernPgdir))
    {
      var i := 0;
      while i < |commands|
        invariant i <= |commands|
        invariant forall j :: 0 <= j < i ==> commands[j].name != args[0]
        invariant kernPgdir == old(kernPgdir) && console == old(console)
      {
        if args[0] == commands[i].name {
          assert Lookup(commands, args[0]) == Some(i);
          r := Invoke(commands[i].func, args);
          return r, Ran(i, args);
        }
        i := i + 1;
      }
      console := console + UnknownCommandText(args[0]);
      return 0, UnknownCommand(args[0]);
    }
  }
}
