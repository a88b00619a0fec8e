/** Lines through a connection and back. */
module RoundTrip {
  import opened Stream

  /** Newline-terminated, with no other newline, and short enough to be read in one piece. */
  ghost predicate IsLine(line: seq<byte>, maxlen: nat) {
    && 0 < |line| < maxlen
    && line[|line| - 1] == NEWLINE
    && NEWLINE !in line[..|line| - 1]
  }

  function Flatten(lines: seq<seq<byte>>): seq<byte> {
    if lines == [] then [] else lines[0] + Flatten(lines[1..])
  }

  lemma {:induction false} FlattenConcat(a: seq<seq<byte>>, b: seq<seq<byte>>)
    ensures Flatten(a + b) == Flatten(a) + Flatten(b)
  {
    if a == [] {
      assert a + b == b;
    } else {
      assert (a + b)[1..] == a[1..] + b;
      FlattenConcat(a[1..], b);
    }
  }

  /** The next line of a stream of lines is the first of them. */
  lemma FirstLine(line: seq<byte>, more: seq<byte>, maxlen: nat)
    requires IsLine(line, maxlen)
    ensures LineLength(line + more, maxlen) == |line|
    ensures !Truncates(line + more, maxlen)
  {
    var all := line + more;
    assert all[|line| - 1] == NEWLINE;
    assert all[..|line|] == line && all[|line|..] == more;
    ReadlineDetermined(all, line, more, maxlen, |line|);
  }

  /** A connection: what a Sink has accepted is what a Source delivers. Lines sent one by one with
      Writen, under any partial writes and interruptions, come back one by one from Readline, under any
      chunks and interruptions, the same lines in the same order, and then 0. */
  method SendAndReceive(lines: seq<seq<byte>>, maxlen: nat, writeScript: seq<Outcome>, readScript: seq<Outcome>)
    returns (got: seq<seq<byte>>)
    requires maxlen >= 2 && forall i :: 0 <= i < |lines| ==> IsLine(lines[i], maxlen)
    requires Reliable(writeScript) && Refused !in writeScript && Reliable(readScript)
    ensures got == lines
  {
    var sink := new Sink(writeScript);
    for i := 0 to |lines|
      invariant sink.sent == Flatten(lines[..i])
      invariant Reliable(sink.script) && Refused !in sink.script
    {
      ghost var script := sink.script;
      var buf := new byte[|lines[i]|](j requires 0 <= j < |lines[i]| => lines[i][j]);
      assert buf[..] == lines[i] && buf[..|lines[i]|] == lines[i];
      var res := Writen(sink, buf, |lines[i]|);
      NothingFatal(script, sink.script, true, res == -1);
      assert lines[..i + 1] == lines[..i] + [lines[i]];
      FlattenConcat(lines[..i], [lines[i]]);
      assert Flatten([lines[i]]) == lines[i];
    }
    assert lines[..|lines|] == lines;
    var source := new Source(sink.sent, readScript);
    got := Receive(source, maxlen, lines);
  }

  /** One Readline over a connection without hard errors. */
  method ReceiveOne(reader: LineBuffer, source: Source, vptr: array<byte>, maxlen: nat) returns (n: nat)
    requires reader.Valid() && vptr != reader.readBuf && vptr.Length == maxlen >= 2 && Reliable(source.script)
    modifies reader, reader.readBuf, source, vptr
    ensures reader.Valid() && reader.readBuf == old(reader.readBuf) && Reliable(source.script)
    ensures var all := old(reader.Pending(source));
            var k := LineLength(all, maxlen);
            && reader.Pending(source) == all[k..]
            && k < vptr.Length && vptr[..k] == all[..k]
            && n == k + (if Truncates(all, maxlen) then 1 else 0)
  {
    hide LineLength, Truncates, IsReadline, StopsAt, Reliable;
    ghost var script := source.script;
    ghost var all := reader.Pending(source);
    var res := reader.Readline(source, vptr, maxlen);
    NothingFatal(script, source.script, false, res == -1);
    ghost var rest := reader.Pending(source);
    ghost var stored := vptr[..|all| - |rest|];
    ReadlineDetermined(all, stored, rest, maxlen, res);
    assert |stored| == LineLength(all, maxlen);
    n := res;
  }

  /** The first line of a stream of lines is read whole; at the end of the stream nothing is. */
  lemma NextLine(todo: seq<seq<byte>>, maxlen: nat)
    requires maxlen >= 2 && forall i :: 0 <= i < |todo| ==> IsLine(todo[i], maxlen)
    ensures !Truncates(Flatten(todo), maxlen)
    ensures todo == [] ==> LineLength(Flatten(todo), maxlen) == 0
    ensures todo != [] ==>
              var k := LineLength(Flatten(todo), maxlen);
              k == |todo[0]| > 0 && Flatten(todo)[..k] == todo[0] && Flatten(todo)[k..] == Flatten(todo[1..])
  {
    if todo != [] {
      FirstLine(todo[0], Flatten(todo[1..]), maxlen);
    }
  }

  method Receive(source: Source, maxlen: nat, ghost lines: seq<seq<byte>>) returns (got: seq<seq<byte>>)
    requires maxlen >= 2 && forall i :: 0 <= i < |lines| ==> IsLine(lines[i], maxlen)
    requires Reliable(source.script) && source.stream == Flatten(lines)
    modifies source
    ensures got == lines
  {
    hide IsLine, LineLength, Truncates, Flatten;
    var reader := new LineBuffer();
    got := [];
    ghost var todo := lines;
    var vptr := new byte[maxlen](_ => 0);
    while true
      invariant fresh(reader) && fresh(reader.readBuf) && reader.Valid() && vptr != reader.readBuf
      invariant Reliable(source.script)
      invariant lines == got + todo && reader.Pending(source) == Flatten(todo)
      invariant forall i :: 0 <= i < |todo| ==> IsLine(todo[i], maxlen)
      decreases |todo|
    {
      NextLine(todo, maxlen);
      var n := ReceiveOne(reader, source, vptr, maxlen);
      if n == 0 {
        return;
      }
      got := got + [vptr[..n]];
      todo := todo[1..];
    }
  }

  /** Writen on one side and Readn on the other: the same bytes. */
  method SendAndReadn(data: array<byte>, writeScript: seq<Outcome>, readScript: seq<Outcome>) returns (back: array<byte>)
    requires Reliable(writeScript) && Refused !in writeScript && Reliable(readScript)
    ensures back[..] == data[..]
  {
    var sink := new Sink(writeScript);
    var sent := Writen(sink, data, data.Length);
    NothingFatal(writeScript, sink.script, true, sent == -1);
    var source := new Source(sink.sent, readScript);
    ghost var stream := source.stream;
    assert stream == data[..];
    back := new byte[data.Length](_ => 0);
    var n := Readn(source, back, data.Length);
    NothingFatal(readScript, source.script, false, n == -1);
    assert n == data.Length && source.stream == [];
    assert stream == back[..n] == back[..];
  }
}
