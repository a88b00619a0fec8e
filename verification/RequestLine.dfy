/** The web server's request-line parser, which copies the path to the front of the buffer it reads
    from, and the client's request. */
module RequestLine {
  import opened Stream
  import opened Tokenizer

  const LINE_SIZE: nat := 200
  const SPACE: byte := 32

  /* ---------- what the parser takes from a request ---------- */

  function SkipSpaces(r: seq<byte>, i: nat): (e: nat)
    requires i <= |r|
    ensures i <= e <= |r|
    ensures forall k :: i <= k < e ==> r[k] == SPACE
    ensures e < |r| ==> r[e] != SPACE
    decreases |r| - i
  {
    if i < |r| && r[i] == SPACE then SkipSpaces(r, i + 1) else i
  }

  function PathEnd(r: seq<byte>, i: nat): (e: nat)
    requires i <= |r|
    ensures i <= e <= |r|
    ensures forall k :: i <= k < e ==> r[k] != SPACE
    ensures e < |r| ==> r[e] == SPACE
    decreases |r| - i
  {
    if i < |r| && r[i] != SPACE then PathEnd(r, i + 1) else i
  }

  function TokenEnd(r: seq<byte>, i: nat): (e: nat)
    requires i <= |r|
    ensures i <= e <= |r|
    ensures forall k :: i <= k < e ==> !IsSpace(r[k])
    ensures e < |r| ==> IsSpace(r[e])
    decreases |r| - i
  {
    if i < |r| && !IsSpace(r[i]) then TokenEnd(r, i + 1) else i
  }

  predicate IsGet(r: seq<byte>) { |r| > 2 && r[0] == 71 && r[1] == 69 && r[2] == 84 }

  lemma GetExactly(r: seq<byte>)
    ensures IsGet(r) <==> |r| >= 3 && r[..3] == [71, 69, 84]
  {
  }

  function PathOf(r: seq<byte>): seq<byte>
    requires IsGet(r)
  {
    var start := SkipSpaces(r, 3);
    r[start..PathEnd(r, start)]
  }

  function VersionOf(r: seq<byte>): seq<byte>
    requires IsGet(r)
  {
    var start := SkipSpaces(r, PathEnd(r, SkipSpaces(r, 3)));
    r[start..TokenEnd(r, start)]
  }

  /** `text` and a NUL behind it are now at the front of the buffer, and the rest is as it was. */
  ghost predicate HoldsString(was: seq<byte>, now: seq<byte>, text: seq<byte>) {
    |text| < |now| == |was| && now[..|text|] == text && now[|text|] == 0
    && forall k :: |text| < k < |now| ==> now[k] == was[k]
  }

  /** Lines 28 and 33: step over the blanks from `i`. */
  method StepOverSpaces(buf: array<byte>, i: nat, n: nat) returns (e: nat)
    requires i <= n <= buf.Length
    ensures e == SkipSpaces(buf[..n], i)
  {
    e := i;
    while e < n && buf[e] == SPACE
      invariant i <= e <= n && SkipSpaces(buf[..n], e) == SkipSpaces(buf[..n], i)
    {
      e := e + 1;
    }
  }

  /** Lines 30 and 31: the path moves to the front of the buffer it is read from.  The write index stays
      behind the read index, so nothing is overwritten before it is read. */
  method MovePath(buf: array<byte>, i: nat, n: nat, ghost r: seq<byte>) returns (e: nat, j: nat)
    requires 0 < i <= n <= buf.Length && r == buf[..n]
    modifies buf
    ensures e == PathEnd(r, i) && j == e - i
    ensures forall k :: 0 <= k < j ==> buf[k] == r[i + k]
    ensures forall k :: j <= k < n ==> buf[k] == r[k]
    ensures forall k :: n <= k < buf.Length ==> buf[k] == old(buf[k])
  {
    e, j := i, 0;
    while e < n && buf[e] != SPACE
      invariant i <= e <= n && j == e - i
      invariant PathEnd(r, e) == PathEnd(r, i)
      invariant forall k :: 0 <= k < j ==> buf[k] == r[i + k]
      invariant forall k :: j <= k < n ==> buf[k] == r[k]
      invariant forall k :: n <= k < buf.Length ==> buf[k] == old(buf[k])
    {
      buf[j] := buf[e];
      e, j := e + 1, j + 1;
    }
  }

  /** Lines 35 and 36: the version is copied out. */
  method CopyVersion(buf: array<byte>, i: nat, n: nat, http: array<byte>) returns (j: nat)
    requires i <= n <= buf.Length <= http.Length && buf != http
    modifies http
    ensures i + j == TokenEnd(buf[..n], i)
    ensures forall k :: 0 <= k < j ==> http[k] == buf[i + k]
    ensures forall k :: j <= k < http.Length ==> http[k] == old(http[k])
  {
    var e := i;
    j := 0;
    while e < n && !IsSpace(buf[e])
      invariant i <= e <= n && j == e - i
      invariant TokenEnd(buf[..n], e) == TokenEnd(buf[..n], i)
      invariant forall k :: 0 <= k < j ==> http[k] == buf[i + k]
      invariant forall k :: j <= k < http.Length ==> http[k] == old(http[k])
    {
      http[j] := buf[e];
      e, j := e + 1, j + 1;
    }
  }

  /** What lies behind the write index is what came from there, so it parses the same. */
  lemma {:induction false} SameTail(r: seq<byte>, s: seq<byte>, i: nat)
    requires i <= |r| == |s| && forall k :: i <= k < |r| ==> r[k] == s[k]
    ensures SkipSpaces(r, i) == SkipSpaces(s, i) && TokenEnd(r, i) == TokenEnd(s, i)
    decreases |r| - i
  {
    if i < |r| {
      SameTail(r, s, i + 1);
    }
  }

  /** Lines 28 to 32: the path and its NUL end up at the front of the buffer, and what comes behind the
      path has not moved. */
  method TakePath(buf: array<byte>, n: nat, ghost r: seq<byte>) returns (i: nat, ghost j: nat)
    requires n <= buf.Length && r == buf[..n] && IsGet(r)
    modifies buf
    ensures i == PathEnd(r, SkipSpaces(r, 3)) && j == |PathOf(r)| <= i - 3
    ensures buf[..j] == PathOf(r) && buf[j] == 0
    ensures forall k :: j < k < buf.Length ==> buf[k] == old(buf[k])
  {
    var start := StepOverSpaces(buf, 3, n);
    var w;
    i, w := MovePath(buf, start, n, r);
    j := w;
    assert buf[..j] == r[start..i];
    buf[w] := 0;
    assert buf[..j] == r[start..i];
  }

  /** Lines 33 to 37: the version and its NUL go to `http`. */
  method TakeVersion(buf: array<byte>, i: nat, n: nat, http: array<byte>, ghost r: seq<byte>) returns (ghost j: nat)
    requires i <= n <= buf.Length <= http.Length && buf != http
    requires 3 <= i && |r| == n && forall k :: i <= k < n ==> buf[k] == r[k]
    modifies http
    ensures var from := SkipSpaces(r, i);
            from + j == TokenEnd(r, from) && j < http.Length && http[..j] == r[from..from + j] && http[j] == 0
    ensures forall k :: j < k < http.Length ==> http[k] == old(http[k])
  {
    ghost var s := buf[..n];
    SameTail(s, r, i);
    var from := StepOverSpaces(buf, i, n);
    SameTail(s, r, from);
    var w := CopyVersion(buf, from, n, http);
    j := w;
    http[w] := 0;
    assert http[..j] == r[from..from + j];
  }

  /** The parser: on a GET the path replaces the front of `buf` and the version goes to `http`, each with
      a NUL behind it, for every request whatever, since the write index stays behind the read index. */
  method ParseRequest(buf: array<byte>, n: int, http: array<byte>) returns (isGet: bool)
    requires buf.Length == LINE_SIZE && http.Length == LINE_SIZE && buf != http
    requires -1 <= n <= LINE_SIZE
    modifies buf, http
    ensures isGet <==> n > 2 && IsGet(old(buf[..n]))
    ensures !isGet ==> buf[..] == old(buf[..]) && http[..] == old(http[..])
    ensures isGet ==> HoldsString(old(buf[..]), buf[..], PathOf(old(buf[..n])))
    ensures isGet ==> HoldsString(old(http[..]), http[..], VersionOf(old(buf[..n])))
  {
    hide SkipSpaces, PathEnd, TokenEnd, IsSpace;
    if !(n > 2 && buf[0] == 71 && buf[1] == 69 && buf[2] == 84) {
      return false;
    }
    ghost var r := buf[..n];
    ghost var j;
    var i;
    i, j := TakePath(buf, n, r);
    assert buf[..][..j] == PathOf(r);
    j := TakeVersion(buf, i, n, http, r);
    assert http[..][..j] == VersionOf(r);
    isGet := true;
  }

  /** Path and version, said of the bytes: behind GET come blanks up to `i1`, the path up to `i2`, blanks up to
      `i3` and the version up to `i4`. No blank is in the path, no white space in the version, and each of
      the four is as long as it can be. */
  lemma Parts(r: seq<byte>) returns (i1: nat, i2: nat, i3: nat, i4: nat)
    requires IsGet(r)
    ensures 3 <= i1 <= i2 <= i3 <= i4 <= |r| && PathOf(r) == r[i1..i2] && VersionOf(r) == r[i3..i4]
    ensures (forall k :: 3 <= k < i1 ==> r[k] == SPACE) && (i1 < |r| ==> r[i1] != SPACE)
    ensures (forall k :: i1 <= k < i2 ==> r[k] != SPACE) && (i2 < |r| ==> r[i2] == SPACE)
    ensures (forall k :: i2 <= k < i3 ==> r[k] == SPACE) && (i3 < |r| ==> r[i3] != SPACE)
    ensures (forall k :: i3 <= k < i4 ==> !IsSpace(r[k])) && (i4 < |r| ==> IsSpace(r[i4]))
  {
    hide SkipSpaces, PathEnd, TokenEnd, IsSpace;
    i1 := SkipSpaces(r, 3);
    i2 := PathEnd(r, i1);
    i3 := SkipSpaces(r, i2);
    i4 := TokenEnd(r, i3);
  }

  /* ---------- the client's request ---------- */

  const HTTP_1_1: seq<byte> := [72, 84, 84, 80, 47, 49, 46, 49]

  /** "GET %s HTTP/1.1\r\n\r\n" */
  function Request(input: seq<byte>): seq<byte> {
    [71, 69, 84, 32] + input + [32] + HTTP_1_1 + [13, 10, 13, 10]
  }

  lemma RequestBytes(input: seq<byte>)
    requires input != []
    ensures
      var r, n := Request(input), |input|;
      && |r| == 17 + n && r[..3] == [71, 69, 84] && r[3] == SPACE
      && r[4..4 + n] == input && r[4 + n] == SPACE
      && r[5 + n..13 + n] == HTTP_1_1 && r[13 + n] == 13
  {
  }

  lemma FoundEnds(r: seq<byte>, i: nat, e: nat)
    requires i <= e < |r|
    ensures r[e] != SPACE && (forall k :: i <= k < e ==> r[k] == SPACE) ==> SkipSpaces(r, i) == e
    ensures r[e] == SPACE && (forall k :: i <= k < e ==> r[k] != SPACE) ==> PathEnd(r, i) == e
    ensures IsSpace(r[e]) && (forall k :: i <= k < e ==> !IsSpace(r[k])) ==> TokenEnd(r, i) == e
  {
    hide SkipSpaces, PathEnd, TokenEnd, IsSpace;
  }

  lemma ComesBack(input: seq<byte>)
    requires input != [] && input[0] == 47 && SPACE !in input
    ensures IsGet(Request(input)) && PathOf(Request(input)) == input && VersionOf(Request(input)) == HTTP_1_1
  {
    hide Request, SkipSpaces, PathEnd, TokenEnd;
    var r, n := Request(input), |input|;
    RequestBytes(input);
    GetExactly(r);
    forall k | 4 <= k < 4 + n ensures r[k] == input[k - 4] != SPACE {
      assert r[k] == r[4..4 + n][k - 4];
    }
    forall k | 5 + n <= k < 13 + n ensures r[k] == HTTP_1_1[k - 5 - n] {
      assert r[k] == r[5 + n..13 + n][k - 5 - n];
    }
    FoundEnds(r, 3, 4);
    FoundEnds(r, 4, 4 + n);
    FoundEnds(r, 4 + n, 5 + n);
    FoundEnds(r, 5 + n, 13 + n);
  }

  /** The request line comes back whole if and only if the input has no space in it. */
  lemma RoundTrip(input: seq<byte>)
    requires input != [] && input[0] == 47
    ensures IsGet(Request(input))
    ensures PathOf(Request(input)) == input && VersionOf(Request(input)) == HTTP_1_1 <==> SPACE !in input
  {
    RequestBytes(input);
    GetExactly(Request(input));
    hide Request, SkipSpaces, PathEnd, TokenEnd;
    if SPACE !in input {
      ComesBack(input);
    } else {
      var path := PathOf(Request(input));
      assert forall k :: 0 <= k < |path| ==> path[k] != SPACE;
    }
  }

  /** For every space-free path that fits, the strings the server is left with are that path and HTTP/1.1. */
  method Exchange(input: seq<byte>) returns (path: seq<byte>, version: seq<byte>)
    requires input != [] && input[0] == 47 && SPACE !in input && 0 !in input
    requires |Request(input)| < LINE_SIZE
    ensures path == input && version == HTTP_1_1
  {
    var r := Request(input);
    var buf := new byte[LINE_SIZE](i => if 0 <= i < |r| then r[i] else 0);
    var http := new byte[LINE_SIZE](_ => 0);
    assert buf[..|r|] == r;
    RoundTrip(input);
    var isGet := ParseRequest(buf, |r|, http);
    CStringIs(buf[..], 0, input);
    CStringIs(http[..], 0, HTTP_1_1);
    path, version := CString(buf[..], 0), CString(http[..], 0);
  }
}
