/** The three shells' command-line splitters, which cut the input buffer into C strings in place. */
module Tokenizer {
  import opened Stream

  /** isspace(3) in the C locale. */
  predicate IsSpace(c: byte) { c == 32 || 9 <= c <= 13 }

  /** Space, tab, newline, vertical tab, form feed, carriage return, and nothing else. */
  lemma SixSpaces()
    ensures (set c: byte | IsSpace(c)) == {32, 9, 10, 11, 12, 13}
  {
    forall c: byte | IsSpace(c) ensures c in {32, 9, 10, 11, 12, 13} {
    }
  }

  /* ---------- what the words of a line are ---------- */

  function WordLength(s: seq<byte>): (k: nat)
    ensures k <= |s|
    ensures forall q :: 0 <= q < k ==> !IsSpace(s[q])
    ensures k < |s| ==> IsSpace(s[k])
    ensures s != [] && !IsSpace(s[0]) ==> k > 0
  {
    if s == [] || IsSpace(s[0]) then 0 else 1 + WordLength(s[1..])
  }

  /** The maximal runs of non-space bytes, in order. */
  function Words(s: seq<byte>): seq<seq<byte>>
    decreases |s|
  {
    if s == [] then []
    else if IsSpace(s[0]) then Words(s[1..])
    else [s[..WordLength(s)]] + Words(s[WordLength(s)..])
  }

  /** The C string that starts at `at`. */
  function CString(buf: seq<byte>, at: nat): seq<byte>
    decreases |buf| - at
  {
    if at >= |buf| || buf[at] == 0 then [] else [buf[at]] + CString(buf, at + 1)
  }

  ghost predicate StringAt(buf: seq<byte>, at: nat, s: seq<byte>) {
    at + |s| < |buf| && buf[at..at + |s|] == s && buf[at + |s|] == 0 && 0 !in s
  }

  lemma {:induction false} CStringIs(buf: seq<byte>, at: nat, s: seq<byte>)
    requires StringAt(buf, at, s)
    ensures CString(buf, at) == s
    decreases |s|
  {
    if s != [] {
      assert buf[at] == s[0];
      assert buf[at + 1..at + |s|] == s[1..];
      CStringIs(buf, at + 1, s[1..]);
    }
  }

  lemma WordLengthIs(s: seq<byte>, k: nat)
    requires k <= |s| && (forall q :: 0 <= q < k ==> !IsSpace(s[q])) && (k < |s| ==> IsSpace(s[k]))
    ensures WordLength(s) == k
  {
  }

  /** Words characterised: between them only spaces, in them none. */
  lemma {:induction false} WordsAreWords(s: seq<byte>)
    ensures forall j :: 0 <= j < |Words(s)| ==> Words(s)[j] != [] && forall c :: c in Words(s)[j] ==> !IsSpace(c)
    ensures Joined(Words(s)) == NonSpaces(s)
    decreases |s|
  {
    if s != [] {
      if IsSpace(s[0]) {
        WordsAreWords(s[1..]);
      } else {
        var k := WordLength(s);
        WordsAreWords(s[k..]);
        assert s == s[..k] + s[k..];
        NonSpacesConcat(s[..k], s[k..]);
        AllNonSpaces(s[..k]);
      }
    }
  }

  /** White space separates: the words of a line cut at a space are those before it and those behind it. */
  lemma {:induction false} SplitsAtSpace(a: seq<byte>, space: byte, b: seq<byte>)
    requires IsSpace(space)
    ensures Words(a + [space] + b) == Words(a) + Words(b)
    decreases |a|
  {
    var s := a + [space] + b;
    if a == [] {
      assert s[1..] == b;
    } else if IsSpace(a[0]) {
      assert s[1..] == a[1..] + [space] + b;
      SplitsAtSpace(a[1..], space, b);
    } else {
      var k := WordLength(a);
      WordLengthIs(s, k);
      assert s[..k] == a[..k] && s[k..] == a[k..] + [space] + b;
      SplitsAtSpace(a[k..], space, b);
      assert [a[..k]] + (Words(a[k..]) + Words(b)) == ([a[..k]] + Words(a[k..])) + Words(b);
    }
  }

  /** And nothing else does. */
  lemma OneWord(w: seq<byte>)
    requires w != [] && forall q :: 0 <= q < |w| ==> !IsSpace(w[q])
    ensures Words(w) == [w]
  {
    WordLengthIs(w, |w|);
    assert w[..|w|] == w && w[|w|..] == [];
  }

  function Joined(words: seq<seq<byte>>): seq<byte> {
    if words == [] then [] else words[0] + Joined(words[1..])
  }

  function NonSpaces(s: seq<byte>): seq<byte> {
    if s == [] then [] else (if IsSpace(s[0]) then [] else [s[0]]) + NonSpaces(s[1..])
  }

  lemma {:induction false} NonSpacesConcat(a: seq<byte>, b: seq<byte>)
    ensures NonSpaces(a + b) == NonSpaces(a) + NonSpaces(b)
  {
    if a == [] {
      assert a + b == b;
    } else {
      assert (a + b)[1..] == a[1..] + b;
      NonSpacesConcat(a[1..], b);
    }
  }

  lemma {:induction false} AllNonSpaces(s: seq<byte>)
    requires forall q :: 0 <= q < |s| ==> !IsSpace(s[q])
    ensures NonSpaces(s) == s
  {
    if s != [] {
      AllNonSpaces(s[1..]);
    }
  }

  /* ---------- how far the walk has got ---------- */

  function From(text: seq<byte>, i: nat): seq<byte> {
    if i <= |text| then text[i..] else []
  }

  /** What is ahead of `i` is untouched and ends in two NULs. */
  ghost predicate Ahead(text: seq<byte>, buf: seq<byte>, i: nat) {
    && |text| + 2 <= |buf| && i <= |text| + 1
    && (forall k :: i <= k < |text| ==> buf[k] == text[k])
    && buf[|text|] == 0 && buf[|text| + 1] == 0
  }

  /** The first `argc` words are cut out behind `i`, and `argv` points at them. */
  ghost predicate Recorded(words: seq<seq<byte>>, buf: seq<byte>, i: nat, argv: seq<int>, argc: nat) {
    && argc <= |words| && argc <= |argv|
    && (forall j :: 0 <= j < argc ==>
          argv[j] >= 0 && argv[j] + |words[j]| < i && StringAt(buf, argv[j], words[j]))
  }

  /** The walk over `text` stands at `i`, and the words not yet recorded are those still ahead. */
  ghost predicate Cut(text: seq<byte>, buf: seq<byte>, i: nat, argv: seq<int>, argc: nat) {
    && Ahead(text, buf, i)
    && Recorded(Words(text), buf, i, argv, argc)
    && Words(text)[argc..] == Words(From(text, i))
  }

  lemma CutStart(text: seq<byte>, buf: seq<byte>, argv: seq<int>)
    requires |text| + 2 <= |buf| && buf[..|text|] == text && buf[|text|] == 0 && buf[|text| + 1] == 0
    ensures Cut(text, buf, 0, argv, 0)
  {
    assert text[0..] == text;
    forall k | 0 <= k < |text| ensures buf[k] == text[k] {
      assert buf[..|text|][k] == buf[k];
    }
  }

  lemma CutSpace(text: seq<byte>, buf: seq<byte>, i: nat, argv: seq<int>, argc: nat)
    requires Cut(text, buf, i, argv, argc) && i < |text| && IsSpace(text[i])
    ensures Cut(text, buf, i + 1, argv, argc)
  {
    assert From(text, i)[1..] == From(text, i + 1);
  }

  /** The word at the front of what is ahead is the next one to record. */
  lemma NextWord(text: seq<byte>, i: nat, k: nat, argc: nat)
    requires argc <= |Words(text)| && i < |text| && Words(text)[argc..] == Words(text[i..])
    requires k == WordLength(text[i..]) > 0
    ensures argc < |Words(text)| && Words(text)[argc] == text[i..i + k]
    ensures Words(text)[argc + 1..] == Words(From(text, i + k + 1))
  {
    var rest := text[i..];
    assert Words(rest) == [rest[..k]] + Words(rest[k..]);
    assert Words(text)[argc] == Words(text)[argc..][0];
    assert Words(text)[argc + 1..] == Words(text)[argc..][1..];
    assert rest[..k] == text[i..i + k] && rest[k..] == text[i + k..];
    if i + k < |text| {
      assert rest[k] == text[i + k];
      assert text[i + k..][1..] == text[i + k + 1..];
    }
  }

  lemma StringCut(text: seq<byte>, buf: seq<byte>, i: nat, k: nat)
    requires |text| < |buf| && i + k <= |text| && 0 !in text
    requires forall q :: i <= q < |text| ==> buf[q] == text[q]
    ensures StringAt(buf[i + k := 0], i, text[i..i + k])
  {
    assert buf[i + k := 0][i..i + k] == text[i..i + k];
  }

  lemma StringKept(buf: seq<byte>, at: nat, w: seq<byte>, pos: nat)
    requires StringAt(buf, at, w) && at + |w| < pos < |buf|
    ensures StringAt(buf[pos := 0], at, w)
  {
    assert buf[pos := 0][at..at + |w|] == buf[at..at + |w|];
  }

  lemma RecordedWord(words: seq<seq<byte>>, buf: seq<byte>, i: nat, k: nat, argv: seq<int>, argc: nat)
    requires Recorded(words, buf, i, argv, argc) && argc < |words| && argc < |argv|
    requires |words[argc]| == k && i + k < |buf| && StringAt(buf[i + k := 0], i, words[argc])
    ensures Recorded(words, buf[i + k := 0], i + k + 1, argv[argc := i], argc + 1)
  {
    var buf', argv' := buf[i + k := 0], argv[argc := i];
    forall j | 0 <= j < argc + 1
      ensures argv'[j] >= 0 && argv'[j] + |words[j]| < i + k + 1 && StringAt(buf', argv'[j], words[j])
    {
      if j < argc {
        StringKept(buf, argv[j], words[j], i + k);
      }
    }
  }

  lemma CutWord(text: seq<byte>, buf: seq<byte>, i: nat, k: nat, argv: seq<int>, argc: nat)
    requires Cut(text, buf, i, argv, argc) && 0 !in text
    requires i < |text| && k == WordLength(text[i..]) > 0
    ensures argc < |Words(text)|
    ensures argc < |argv| ==> Cut(text, buf[i + k := 0], i + k + 1, argv[argc := i], argc + 1)
  {
    hide Words, StringAt;
    NextWord(text, i, k, argc);
    if argc < |argv| {
      StringCut(text, buf, i, k);
      RecordedWord(Words(text), buf, i, k, argv, argc);
    }
  }

  lemma CutEnd(text: seq<byte>, buf: seq<byte>, i: nat, argv: seq<int>, argc: nat)
    requires Cut(text, buf, i, argv, argc) && i >= |text|
    ensures argc == |Words(text)|
    ensures forall j :: 0 <= j < argc ==> argv[j] >= 0 && CString(buf, argv[j]) == Words(text)[j]
  {
    assert From(text, i) == [];
    assert |Words(text)[argc..]| == 0;
    forall j | 0 <= j < argc ensures CString(buf, argv[j]) == Words(text)[j] {
      CStringIs(buf, argv[j], Words(text)[j]);
    }
  }

  /* ---------- the three splitters ---------- */

  const NULL: int := -1

  /** A buffer holding the string `line` as fgets leaves it. */
  ghost predicate Holds(buf: seq<byte>, line: seq<byte>) {
    0 < |line| <= 1022 && |buf| == 1024 && buf[..|line|] == line && buf[|line|] == 0 && 0 !in line
  }

  /** The line without its last byte, which the shells overwrite with a NUL (it is the newline unless
      the input ended or filled the buffer). */
  function Command(line: seq<byte>): seq<byte>
    requires line != []
  {
    line[..|line| - 1]
  }

  lemma NonZero(s: seq<byte>)
    requires 0 !in s
    ensures forall k :: 0 <= k < |s| ==> s[k] != 0
  {
    forall k | 0 <= k < |s| ensures s[k] != 0 {
      assert s[k] in s;
    }
  }

  lemma NotNul(buf: seq<byte>, line: seq<byte>, k: nat)
    requires Holds(buf, line) && k < |line|
    ensures buf[k] == line[k] != 0
  {
    assert buf[..|line|][k] == line[k];
  }

  method Strlen(buf: array<byte>, ghost line: seq<byte>) returns (n: nat)
    requires Holds(buf[..], line)
    ensures n == |line|
  {
    n := 0;
    while buf[n] != 0
      invariant 0 <= n <= |line|
      decreases |line| - n
    {
      n := n + 1;
    }
    forall k | 0 <= k < |line| ensures buf[k] != 0 {
      NotNul(buf[..], line, k);
    }
  }

  /** What each splitter must produce. */
  ghost predicate Split(text: seq<byte>, buf: seq<byte>, argv: seq<int>, argc: nat) {
    && argc == |Words(text)| < |argv|
    && argv[argc] == NULL
    && forall j :: 0 <= j < argc ==> argv[j] >= 0 && CString(buf, argv[j]) == Words(text)[j]
  }

  /** The inner loop all three share: on to the end of the word that starts at `start`. */
  method WordEnd(inbuf: array<byte>, start: nat, ghost text: seq<byte>) returns (i: nat)
    requires |text| < inbuf.Length && start < |text| && 0 !in text
    requires inbuf[|text|] == 0 && forall k :: start <= k < |text| ==> inbuf[k] == text[k]
    ensures i <= |text| && i == start + WordLength(text[start..])
  {
    i := start;
    while inbuf[i] != 0 && !IsSpace(inbuf[i])
      invariant start <= i <= |text|
      invariant forall q :: start <= q < i ==> !IsSpace(text[q])
      decreases |text| - i
    {
      i := i + 1;
    }
    NonZero(text);
    WordLengthIs(text[start..], i - start);
  }

  /** The branch all three take at the start of a word: record it, go on to its end and put a NUL there. */
  method CutHere(inbuf: array<byte>, argv: array<int>, start: nat, argc: nat, ghost text: seq<byte>) returns (i: nat)
    requires Cut(text, inbuf[..], start, argv[..], argc) && 0 !in text
    requires start < |text| && !IsSpace(text[start])
    requires |Words(text)| < argv.Length
    modifies inbuf, argv
    ensures argc < |Words(text)|
    ensures start < i <= |text| && Cut(text, inbuf[..], i + 1, argv[..], argc + 1)
  {
    hide Words, StringAt;
    ghost var buf, args := inbuf[..], argv[..];
    NextWord(text, start, WordLength(text[start..]), argc);
    argv[argc] := start;
    i := WordEnd(inbuf, start, text);
    CutWord(text, buf, start, i - start, args, argc);
    inbuf[i] := 0;
    assert inbuf[..] == buf[i := 0] && argv[..] == args[argc := start];
  }

  lemma AtByte(text: seq<byte>, buf: seq<byte>, i: nat, argv: seq<int>, argc: nat)
    requires Cut(text, buf, i, argv, argc) && buf[i] != 0
    ensures i < |text| && buf[i] == text[i]
  {
  }

  lemma SplitDone(text: seq<byte>, buf: seq<byte>, i: nat, argv: seq<int>, argc: nat)
    requires Cut(text, buf, i, argv, argc) && buf[i] == 0 && 0 !in text && argc < |argv|
    ensures Split(text, buf, argv[argc := NULL], argc)
  {
    NonZero(text);
    CutEnd(text, buf, i, argv, argc);
  }

  lemma SplitStart(line: seq<byte>, buf: seq<byte>, argv: seq<int>)
    requires Holds(buf, line)
    ensures 0 !in Command(line)
    ensures Cut(Command(line), buf[|line| - 1 := 0], 0, argv, 0)
  {
    var text, buf' := Command(line), buf[|line| - 1 := 0];
    assert buf'[..|text|] == buf[..|line|][..|text|];
    CutStart(text, buf', argv);
  }

  /** shell.c: an index walks over the buffer. */
  method ShellSplit(inbuf: array<byte>, argv: array<int>, ghost line: seq<byte>) returns (argc: nat)
    requires Holds(inbuf[..], line) && argv.Length == 32
    requires |Words(Command(line))| <= 31
    modifies inbuf, argv
    ensures Split(Command(line), inbuf[..], argv[..], argc)
  {
    hide Ahead, Recorded, Words;
    ghost var text := Command(line);
    var len := Strlen(inbuf, line);
    SplitStart(line, inbuf[..], argv[..]);
    inbuf[len - 1] := 0;
    var i := 0;
    argc := 0;
    while inbuf[i] != 0
      invariant 0 <= i <= |text| + 1 && argc <= 31
      invariant Cut(text, inbuf[..], i, argv[..], argc)
      decreases |text| + 1 - i
    {
      AtByte(text, inbuf[..], i, argv[..], argc);
      if !IsSpace(inbuf[i]) {
        i := CutHere(inbuf, argv, i, argc, text);
        argc := argc + 1;
      } else {
        CutSpace(text, inbuf[..], i, argv[..], argc);
      }
      i := i + 1;
    }
    SplitDone(text, inbuf[..], i, argv[..], argc);
    argv[argc] := NULL;
  }

  /** Myshell.c: a pointer walks over the buffer; it is an index here as well. */
  method MyshellSplit(inbuf: array<byte>, argv: array<int>, ghost line: seq<byte>) returns (argc: nat)
    requires Holds(inbuf[..], line) && argv.Length == 32
    requires |Words(Command(line))| <= 31
    modifies inbuf, argv
    ensures Split(Command(line), inbuf[..], argv[..], argc)
  {
    hide Ahead, Recorded, Words;
    ghost var text := Command(line);
    var len := Strlen(inbuf, line);
    SplitStart(line, inbuf[..], argv[..]);
    inbuf[len - 1] := 0;
    argc := 0;
    var pstr := 0;
    while inbuf[pstr] != 0
      invariant 0 <= pstr <= |text| + 1 && argc <= 31
      invariant Cut(text, inbuf[..], pstr, argv[..], argc)
      decreases |text| + 1 - pstr
    {
      AtByte(text, inbuf[..], pstr, argv[..], argc);
      if !IsSpace(inbuf[pstr]) {
        pstr := CutHere(inbuf, argv, pstr, argc, text);
        argc := argc + 1;
      } else {
        CutSpace(text, inbuf[..], pstr, argv[..], argc);
      }
      pstr := pstr + 1;
    }
    SplitDone(text, inbuf[..], pstr, argv[..], argc);
    argv[argc] := NULL;
  }

  const LESS: byte := 60
  const GREATER: byte := 62

  /** No word begins with one of the redirection signs. */
  ghost predicate NoRedirection(text: seq<byte>) {
    forall j :: 0 <= j < |Words(text)| ==> Words(text)[j] != [] ==> Words(text)[j][0] != LESS && Words(text)[j][0] != GREATER
  }

  /** mini_shell.c on a line without redirections: its two tests for a redirection sign at the top of
      the loop are never true, and what remains is the same walk. */
  method MiniShellSplit(cmdBuf: array<byte>, argv: array<int>, ghost line: seq<byte>)
    returns (argc: nat, relocateFlag: nat)
    requires Holds(cmdBuf[..], line) && argv.Length == 32
    requires |Words(Command(line))| <= 31 && NoRedirection(Command(line))
    modifies cmdBuf, argv
    ensures Split(Command(line), cmdBuf[..], argv[..], argc)
    ensures relocateFlag == 0
  {
    hide Ahead, Recorded, Words;
    ghost var text := Command(line);
    var len := Strlen(cmdBuf, line);
    SplitStart(line, cmdBuf[..], argv[..]);
    cmdBuf[len - 1] := 0;
    argc, relocateFlag := 0, 0;
    var ptr := 0;
    while cmdBuf[ptr] != 0
      invariant 0 <= ptr <= |text| + 1 && argc <= 31
      invariant Cut(text, cmdBuf[..], ptr, argv[..], argc)
      decreases |text| + 1 - ptr
    {
      AtByte(text, cmdBuf[..], ptr, argv[..], argc);
      FirstOfWord(text, cmdBuf[..], ptr, argv[..], argc);
      assert cmdBuf[ptr] != GREATER && cmdBuf[ptr] != LESS;
      if !IsSpace(cmdBuf[ptr]) {
        ptr := CutHere(cmdBuf, argv, ptr, argc, text);
        argc := argc + 1;
      } else {
        CutSpace(text, cmdBuf[..], ptr, argv[..], argc);
      }
      ptr := ptr + 1;
    }
    SplitDone(text, cmdBuf[..], ptr, argv[..], argc);
    argv[argc] := NULL;
  }

  lemma FirstOfWord(text: seq<byte>, buf: seq<byte>, i: nat, argv: seq<int>, argc: nat)
    requires NoRedirection(text) && Cut(text, buf, i, argv, argc) && i < |text|
    ensures text[i] != GREATER && text[i] != LESS
  {
    if !IsSpace(text[i]) {
      NextWord(text, i, WordLength(text[i..]), argc);
      assert Words(text)[argc][0] == text[i];
    }
  }

  /** Overwriting a final white space (the usual newline) loses no word. */
  lemma {:induction false} TrailingSpace(line: seq<byte>)
    requires line != [] && IsSpace(line[|line| - 1])
    ensures Words(Command(line)) == Words(line)
    decreases |line|
  {
    var text := Command(line);
    if text != [] {
      assert text[0] == line[0];
      if IsSpace(line[0]) {
        assert text[1..] == Command(line[1..]);
        TrailingSpace(line[1..]);
      } else {
        var k := WordLength(line);
        WordLengthIs(text, k);
        assert text[..k] == line[..k] && text[k..] == Command(line[k..]);
        TrailingSpace(line[k..]);
      }
    }
  }
}
