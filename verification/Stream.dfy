/** The byte-stream wrappers: Readn, Writen, and the line reader with its static 100-byte buffer.
    The kernel is a script of outcomes, one per system call; when the script is used up it
    transfers as much as it is asked for. */
module Stream {

  newtype byte = x: int | 0 <= x < 256

  const NEWLINE: byte := 10
  const BUFFER_SIZE: nat := 100

  /** What one call does. Chunk(k): up to `k` bytes, but at least one if there is one to transfer.
      Interrupted: -1 with EINTR.  Failed: -1 with another errno.  Refused: a write that returns 0
      (a read so scripted transfers one byte, since a read returns 0 only at the end of the stream). */
  datatype Outcome = Chunk(k: nat) | Interrupted | Failed | Refused

  function Transfer(script: seq<Outcome>, n: nat, available: nat): (r: nat)
    ensures r <= n && r <= available
    ensures n > 0 && available > 0 ==> r > 0
  {
    var most := if n < available then n else available;
    if script != [] && script[0].Chunk? && script[0].k < most then
      (if script[0].k == 0 then 1 else script[0].k)
    else if script != [] && script[0].Refused? && most > 0 then 1
    else most
  }

  /** One system call uses up one outcome. */
  function Used(script: seq<Outcome>): seq<Outcome> {
    if script == [] then [] else script[1..]
  }

  ghost predicate Reliable(script: seq<Outcome>) { Failed !in script }

  /** The outcomes used up when `was` was ahead and `now` still is. */
  function UsedUp(was: seq<Outcome>, now: seq<Outcome>): seq<Outcome>
    requires |now| <= |was|
  {
    was[..|was| - |now|]
  }

  /** What makes a wrapper give up: a hard error, and for Writen a refused write as well. */
  predicate Fatal(o: Outcome, refusals: bool) { o.Failed? || (refusals && o.Refused?) }

  /** The wrapper has used up outcomes from the front, and has given up if and only if one of them was
      fatal; that one was then the last. */
  ghost predicate StopsAt(was: seq<Outcome>, now: seq<Outcome>, refusals: bool, gaveUp: bool) {
    && |now| <= |was| && was == UsedUp(was, now) + now
    && var used := UsedUp(was, now);
       && (gaveUp ==> used != [] && Fatal(used[|used| - 1], refusals))
       && (forall i :: 0 <= i < |used| - (if gaveUp then 1 else 0) ==> !Fatal(used[i], refusals))
  }

  lemma UseNone(script: seq<Outcome>, refusals: bool)
    ensures StopsAt(script, script, refusals, false)
  {
  }

  lemma UseOne(was: seq<Outcome>, now: seq<Outcome>, refusals: bool)
    requires StopsAt(was, now, refusals, false)
    ensures StopsAt(was, Used(now), refusals, now != [] && Fatal(now[0], refusals))
  {
    if now != [] {
      assert UsedUp(was, Used(now)) == UsedUp(was, now) + [now[0]];
    }
  }

  lemma UseMore(was: seq<Outcome>, mid: seq<Outcome>, now: seq<Outcome>, refusals: bool, gaveUp: bool)
    requires StopsAt(was, mid, refusals, false) && StopsAt(mid, now, refusals, gaveUp)
    ensures StopsAt(was, now, refusals, gaveUp)
  {
    var a, b := UsedUp(was, mid), UsedUp(mid, now);
    assert was == (a + b) + now;
    assert UsedUp(was, now) == a + b;
    forall i | 0 <= i < |a + b| - (if gaveUp then 1 else 0) ensures !Fatal((a + b)[i], refusals) {
      assert (a + b)[i] == if i < |a| then a[i] else b[i - |a|];
    }
  }

  /** Without hard errors in the script there is nothing to give up at. */
  lemma NothingFatal(was: seq<Outcome>, now: seq<Outcome>, refusals: bool, gaveUp: bool)
    requires StopsAt(was, now, refusals, gaveUp) && Reliable(was)
    ensures Reliable(now)
    ensures !gaveUp || (refusals && Refused in was)
    ensures Refused in now ==> Refused in was
  {
    if gaveUp {
      var used := UsedUp(was, now);
      assert used[|used| - 1] in was;
    }
  }

  /** One read and its retries: interruptions, and then the outcome that ended them, unless the script ran out. */
  ghost predicate IsOneRead(was: seq<Outcome>, now: seq<Outcome>) {
    && |now| <= |was|
    && var used := UsedUp(was, now);
       && (was != [] ==> used != [])
       && (forall i :: 0 <= i < |used| - 1 ==> used[i].Interrupted?)
       && (used != [] && used[|used| - 1].Interrupted? ==> now == [])
  }

  /** So a wrapper fails if and only if it met a fatal outcome. */
  lemma FailsExactly(was: seq<Outcome>, now: seq<Outcome>, refusals: bool, gaveUp: bool)
    requires StopsAt(was, now, refusals, gaveUp)
    ensures gaveUp <==> exists i :: 0 <= i < |was| - |now| && Fatal(was[i], refusals)
  {
    var used := UsedUp(was, now);
    assert forall i :: 0 <= i < |used| ==> used[i] == was[i];
  }

  function Interruptions(script: seq<Outcome>): (k: nat)
    ensures k <= |script| && (k < |script| ==> !script[k].Interrupted?)
    ensures forall i :: 0 <= i < k ==> script[i].Interrupted?
  {
    if script == [] || !script[0].Interrupted? then 0 else 1 + Interruptions(script[1..])
  }

  /** And one read fails if and only if the first outcome that is not an interruption is a hard error; it uses
      up the outcomes up to that one. */
  lemma OneReadFails(was: seq<Outcome>, now: seq<Outcome>, gaveUp: bool)
    requires StopsAt(was, now, false, gaveUp) && IsOneRead(was, now)
    ensures gaveUp <==> Interruptions(was) < |was| && was[Interruptions(was)].Failed?
    ensures |was| - |now| == if Interruptions(was) < |was| then Interruptions(was) + 1 else |was|
  {
    hide Interruptions;
    var used, k := UsedUp(was, now), Interruptions(was);
    assert forall i :: 0 <= i < |used| ==> used[i] == was[i];
    assert k < |used| ==> |used| == k + 1;
    assert used != [] ==> |used| - 1 <= k;
  }

  lemma Retried(was: seq<Outcome>, now: seq<Outcome>)
    requires |now| <= |was| && was == UsedUp(was, now) + now
    requires forall i :: 0 <= i < |UsedUp(was, now)| ==> UsedUp(was, now)[i].Interrupted?
    ensures now != [] && now[0].Interrupted? ==>
              forall i :: 0 <= i < |UsedUp(was, Used(now))| ==> UsedUp(was, Used(now))[i].Interrupted?
    ensures was == UsedUp(was, Used(now)) + Used(now)
    ensures now == [] || !now[0].Interrupted? ==> IsOneRead(was, Used(now))
  {
    if now != [] {
      assert UsedUp(was, Used(now)) == UsedUp(was, now) + [now[0]];
    }
  }

  /** The reading end of a connection: `stream` is what the peer sent and has not been read. */
  class Source {
    var stream: seq<byte>
    var script: seq<Outcome>

    constructor (stream: seq<byte>, script: seq<Outcome>)
      ensures this.stream == stream && this.script == script
    {
      this.stream, this.script := stream, script;
    }

    /** read(2) into `buf` from index `at`: the count, 0 at the end of the stream, or -1. */
    method Read(buf: array<byte>, at: nat, n: nat) returns (r: int, interrupted: bool)
      requires n > 0 && at + n <= buf.Length
      modifies this, buf
      ensures script == Used(old(script))
      ensures r < 0 <==> old(script) != [] && (old(script)[0].Interrupted? || old(script)[0].Failed?)
      ensures r < 0 ==> r == -1 && (interrupted <==> old(script)[0].Interrupted?)
      ensures r < 0 ==> stream == old(stream) && buf[..] == old(buf[..])
      ensures r >= 0 ==> r == Transfer(old(script), n, |old(stream)|)
      ensures r >= 0 ==> stream == old(stream)[r..]
      ensures r >= 0 ==> buf[..] == old(buf[..at]) + old(stream)[..r] + old(buf[at + r..])
    {
      interrupted := false;
      if script != [] && (script[0].Interrupted? || script[0].Failed?) {
        interrupted := script[0].Interrupted?;
        r := -1;
      } else {
        r := Transfer(script, n, |stream|);
        forall i | 0 <= i < r {
          buf[at + i] := stream[i];
        }
        stream := stream[r..];
      }
      script := Used(script);
    }
  }

  /** The writing end: `sent` is what the kernel has accepted. */
  class Sink {
    var sent: seq<byte>
    var script: seq<Outcome>

    constructor (script: seq<Outcome>)
      ensures this.sent == [] && this.script == script
    {
      this.sent, this.script := [], script;
    }

    /** write(2) from `buf[at..at + n]`. */
    method Write(buf: array<byte>, at: nat, n: nat) returns (r: int, interrupted: bool)
      requires n > 0 && at + n <= buf.Length
      modifies this
      ensures script == Used(old(script))
      ensures r < 0 <==> old(script) != [] && (old(script)[0].Interrupted? || old(script)[0].Failed?)
      ensures r < 0 ==> r == -1 && (interrupted <==> old(script)[0].Interrupted?)
      ensures r == 0 <==> old(script) != [] && old(script)[0].Refused?
      ensures r <= n && sent == old(sent) + buf[at..at + (if r < 0 then 0 else r)]
    {
      interrupted := false;
      if script != [] && (script[0].Interrupted? || script[0].Failed?) {
        interrupted := script[0].Interrupted?;
        r := -1;
      } else if script != [] && script[0].Refused? {
        r := 0;
      } else {
        r := Transfer(script, n, n);
        sent := sent + buf[at..at + r];
      }
      script := Used(script);
    }
  }

  /** Readn: the first `n` bytes of the stream, or all of it if it is shorter, whatever the chunks
      and interruptions. Even when it fails nothing is lost: what it took is in the buffer. */
  method Readn(fd: Source, vptr: array<byte>, n: nat) returns (res: int)
    requires n <= vptr.Length
    modifies fd, vptr
    ensures res == -1 || res == (if n < |old(fd.stream)| then n else |old(fd.stream)|)
    ensures StopsAt(old(fd.script), fd.script, false, res == -1)
    ensures |fd.stream| <= |old(fd.stream)| && |old(fd.stream)| - |fd.stream| <= n
    ensures res >= 0 ==> |old(fd.stream)| - |fd.stream| == res
    ensures old(fd.stream) == vptr[..|old(fd.stream)| - |fd.stream|] + fd.stream
    ensures vptr[n..] == old(vptr[n..])
  {
    hide StopsAt;
    var nleft, ptr := n, 0;
    ghost var all := fd.stream;
    UseNone(fd.script, false);
    while nleft > 0
      invariant 0 <= nleft && ptr + nleft == n
      invariant StopsAt(old(fd.script), fd.script, false, false)
      invariant ptr <= |all| && fd.stream == all[ptr..] && vptr[..ptr] == all[..ptr]
      invariant vptr[n..] == old(vptr[n..])
      decreases nleft, |fd.script|
    {
      ghost var before := vptr[..];
      UseOne(old(fd.script), fd.script, false);
      var nread, interrupted := fd.Read(vptr, ptr, nleft);
      if nread < 0 {
        if interrupted {
          nread := 0;
        } else {
          return -1;
        }
      } else if nread == 0 {
        break;
      }
      assert vptr[..ptr + nread] == before[..ptr] + all[ptr..][..nread];
      assert vptr[n..] == before[n..];
      nleft := nleft - nread;
      ptr := ptr + nread;
    }
    return n - nleft;
  }

  /** Writen: all `n` bytes in order, whatever the partial writes and interruptions; it gives up only
      at an error or a write that accepts nothing, and then a prefix has been sent. */
  method Writen(fd: Sink, vptr: array<byte>, n: nat) returns (res: int)
    requires n <= vptr.Length
    modifies fd
    ensures res == -1 || res == n
    ensures StopsAt(old(fd.script), fd.script, true, res == -1)
    ensures |old(fd.sent)| <= |fd.sent| <= |old(fd.sent)| + n
    ensures fd.sent == old(fd.sent) + vptr[..|fd.sent| - |old(fd.sent)|]
    ensures res == n ==> fd.sent == old(fd.sent) + vptr[..n]
  {
    hide StopsAt;
    var nleft, ptr := n, 0;
    UseNone(fd.script, true);
    while nleft > 0
      invariant 0 <= nleft && ptr + nleft == n
      invariant StopsAt(old(fd.script), fd.script, true, false)
      invariant fd.sent == old(fd.sent) + vptr[..ptr]
      decreases nleft, |fd.script|
    {
      UseOne(old(fd.script), fd.script, true);
      var nwriten, interrupted := fd.Write(vptr, ptr, nleft);
      if nwriten <= 0 {
        if nwriten < 0 && interrupted {
          nwriten := 0;
        } else {
          return -1;
        }
      }
      assert vptr[..ptr + nwriten] == vptr[..ptr] + vptr[ptr..ptr + nwriten];
      nleft := nleft - nwriten;
      ptr := ptr + nwriten;
    }
    return n;
  }

  /** The static variables of my_read. */
  class LineBuffer {
    var readCnt: int
    var readPtr: nat
    var readBuf: array<byte>

    ghost predicate Valid()
      reads this
    {
      readBuf.Length == BUFFER_SIZE && (readCnt > 0 ==> readPtr + readCnt <= BUFFER_SIZE)
    }

    /** What has been read from the kernel and not yet handed out. */
    ghost function Buffered(): seq<byte>
      requires Valid()
      reads this, readBuf
    {
      if readCnt <= 0 then [] else readBuf[readPtr..readPtr + readCnt]
    }

    /** What the caller still has to see: the buffer, then the stream. */
    ghost function Pending(fd: Source): seq<byte>
      requires Valid()
      reads this, readBuf, fd
    {
      Buffered() + fd.stream
    }

    constructor ()
      ensures Valid() && fresh(readBuf) && Buffered() == []
    {
      readCnt, readPtr := 0, 0;
      readBuf := new byte[BUFFER_SIZE](_ => 0);
    }

    /** The `again:` loop of my_read, entered with an empty buffer: one successful read, at the end
        of the stream leaving nothing. */
    method Fill(fd: Source) returns (ok: bool)
      requires Valid() && readCnt <= 0
      modifies this, readBuf, fd
      ensures readBuf == old(readBuf)
      ensures StopsAt(old(fd.script), fd.script, false, !ok) && IsOneRead(old(fd.script), fd.script)
      ensures !ok ==> readCnt < 0 && fd.stream == old(fd.stream)
      ensures ok ==> 0 <= readCnt <= BUFFER_SIZE && readCnt <= |old(fd.stream)|
      ensures ok ==> readBuf[..readCnt] == old(fd.stream)[..readCnt] && fd.stream == old(fd.stream)[readCnt..]
      ensures ok && readCnt == 0 ==> old(fd.stream) == []
    {
      hide StopsAt, IsOneRead;
      ghost var was := fd.script;
      UseNone(was, false);
      while true
        invariant readBuf == old(readBuf)
        invariant fd.stream == old(fd.stream)
        invariant StopsAt(was, fd.script, false, false)
        invariant |fd.script| <= |was| && was == UsedUp(was, fd.script) + fd.script
        invariant forall i :: 0 <= i < |UsedUp(was, fd.script)| ==> UsedUp(was, fd.script)[i].Interrupted?
        decreases |fd.script|
      {
        UseOne(was, fd.script, false);
        Retried(was, fd.script);
        var n, interrupted := fd.Read(readBuf, 0, BUFFER_SIZE);
        readCnt := n;
        if readCnt >= 0 {
          assert readBuf[..readCnt] == old(fd.stream)[..readCnt];
          return true;
        }
        if !interrupted {
          return false;
        }
      }
    }

    /** The tail of my_read: hand out the first buffered byte. */
    method Next() returns (c: byte)
      requires Valid() && readCnt > 0
      modifies this
      ensures Valid() && readBuf == old(readBuf)
      ensures old(Buffered()) == [c] + Buffered()
    {
      ghost var buffered := Buffered();
      readCnt := readCnt - 1;
      c := readBuf[readPtr];
      readPtr := readPtr + 1;
      assert Buffered() == buffered[1..];
    }

    /** The head of my_read: with an empty buffer, get more from the kernel. 1: there is a byte to
        hand out.  0: the end of the stream.  -1: an error. What is pending stays the same. */
    method Refill(fd: Source) returns (rc: int)
      requires Valid() && readCnt <= 0
      modifies this, readBuf, fd
      ensures Valid() && readBuf == old(readBuf)
      ensures rc == 1 || rc == 0 || rc == -1
      ensures Pending(fd) == old(Pending(fd))
      ensures rc == 1 ==> readCnt > 0
      ensures rc == 0 ==> Pending(fd) == []
      ensures StopsAt(old(fd.script), fd.script, false, rc == -1) && IsOneRead(old(fd.script), fd.script)
    {
      hide StopsAt, IsOneRead;
      ghost var stream := fd.stream;
      assert Pending(fd) == stream;
      var ok := Fill(fd);
      if !ok {
        assert Pending(fd) == stream;
        return -1;
      }
      if readCnt == 0 {
        assert Pending(fd) == [];
        return 0;
      }
      readPtr := 0;
      ghost var n: nat := readCnt;
      assert Buffered() == readBuf[0..n] == stream[..n];
      Rejoin(stream, n);
      return 1;
    }

    /** my_read: the next byte of what is pending. */
    method MyRead(fd: Source) returns (rc: int, c: byte)
      requires Valid()
      modifies this, readBuf, fd
      ensures Valid() && readBuf == old(readBuf)
      ensures rc == 1 || rc == 0 || rc == -1
      ensures rc == 1 ==> old(Pending(fd)) == [c] + Pending(fd)
      ensures rc == 0 ==> old(Pending(fd)) == [] && Pending(fd) == []
      ensures rc == -1 ==> Pending(fd) == old(Pending(fd))
      ensures StopsAt(old(fd.script), fd.script, false, rc == -1)
      ensures if old(readCnt) > 0 then fd.script == old(fd.script) else IsOneRead(old(fd.script), fd.script)
    {
      hide StopsAt, IsOneRead;
      UseNone(fd.script, false);
      c := 0;
      if readCnt <= 0 {
        rc := Refill(fd);
        if rc != 1 {
          return rc, c;
        }
      }
      ghost var buffered := Buffered();
      c := Next();
      FirstOut(buffered, c, Buffered(), fd.stream);
      rc := 1;
    }

    /** The body of Readline's loop: read a byte and store it at `ptr`. */
    method ReadInto(fd: Source, vptr: array<byte>, ptr: nat) returns (rc: int, c: byte)
      requires Valid() && vptr != readBuf && ptr < vptr.Length
      modifies this, readBuf, fd, vptr
      ensures Valid() && readBuf == old(readBuf)
      ensures rc == 1 || rc == 0 || rc == -1
      ensures rc == 1 ==> old(Pending(fd)) == [c] + Pending(fd) && vptr[..ptr + 1] == old(vptr[..ptr]) + [c]
      ensures rc == 0 ==> old(Pending(fd)) == [] && Pending(fd) == []
      ensures rc == -1 ==> Pending(fd) == old(Pending(fd))
      ensures rc != 1 ==> vptr[..] == old(vptr[..])
      ensures forall k :: ptr < k < vptr.Length ==> vptr[k] == old(vptr[k])
      ensures StopsAt(old(fd.script), fd.script, false, rc == -1)
    {
      hide StopsAt;
      rc, c := MyRead(fd);
      if rc == 1 {
        vptr[ptr] := c;
      }
    }

    /** Readline: one line of what is pending, its newline included, cut short at the end of the
        stream or at `maxlen - 1` bytes, with a NUL behind it. What it leaves pending is exactly the rest. */
    method Readline(fd: Source, vptr: array<byte>, maxlen: nat) returns (res: int)
      requires Valid() && vptr != readBuf && vptr.Length >= 1 && vptr.Length >= maxlen
      modifies this, readBuf, fd, vptr
      ensures Valid() && readBuf == old(readBuf)
      ensures res >= -1 && StopsAt(old(fd.script), fd.script, false, res == -1)
      ensures var stored := |old(Pending(fd))| - |Pending(fd)|;
              && 0 <= stored < vptr.Length
              && IsReadline(old(Pending(fd)), vptr[..stored], Pending(fd), maxlen, res)
              && (res >= 0 ==> vptr[stored] == 0)
              && forall k :: stored < k < vptr.Length ==> vptr[k] == old(vptr[k])
    {
      hide IsReadline, Valid, Pending, Buffered, StopsAt;
      var n, ptr := 1, 0;
      ghost var all, taken := Pending(fd), [];
      UseNone(fd.script, false);
      while n < maxlen
        invariant 1 <= n && ptr == n - 1 && (n == 1 || n <= maxlen)
        invariant Valid() && readBuf == old(readBuf)
        invariant taken == vptr[..ptr] && NEWLINE !in taken
        invariant all == taken + Pending(fd)
        invariant StopsAt(old(fd.script), fd.script, false, false)
        invariant forall k :: ptr <= k < vptr.Length ==> vptr[k] == old(vptr[k])
      {
        ghost var rest, script := Pending(fd), fd.script;
        var rc, c := ReadInto(fd, vptr, ptr);
        UseMore(old(fd.script), script, fd.script, false, rc == -1);
        if rc == 1 {
          Stored(all, taken, c, rest, Pending(fd));
          taken := taken + [c];
          ptr := ptr + 1;
          if c == NEWLINE {
            break;
          }
        } else if rc == 0 {
          vptr[ptr] := 0;
          assert vptr[..ptr] == taken;
          StopHere(all, taken, Pending(fd), maxlen, n - 1);
          return n - 1;
        } else {
          assert vptr[..ptr] == taken;
          StopHere(all, taken, Pending(fd), maxlen, -1);
          return -1;
        }
        n := n + 1;
      }
      vptr[ptr] := 0;
      assert vptr[..ptr] == taken;
      StopHere(all, taken, Pending(fd), maxlen, n);
      return n;
    }
  }

  function Room(maxlen: nat): nat { if maxlen == 0 then 0 else maxlen - 1 }

  /** What Readline promises: `all` was pending, `stored` is now in the caller's buffer and `rest` is
      still pending. A newline can only be the last byte stored. The line is complete, or it filled
      the room (and then the result is one more than the length stored), or the stream has ended;
      only an error (-1) may stop anywhere. */
  ghost predicate IsReadline(all: seq<byte>, stored: seq<byte>, rest: seq<byte>, maxlen: nat, res: int) {
    var k := |stored|;
    && all == stored + rest
    && k <= Room(maxlen)
    && (if k > 0 && stored[k - 1] == NEWLINE then NEWLINE !in stored[..k - 1] && (res == -1 || res == k)
        else NEWLINE !in stored && (res == -1 || (if k == Room(maxlen) then res == k + 1 else rest == [] && res == k)))
  }

  /** The ways Readline's loop stops. */
  lemma StopHere(all: seq<byte>, taken: seq<byte>, rest: seq<byte>, maxlen: nat, res: int)
    requires all == taken + rest && |taken| <= Room(maxlen)
    requires NEWLINE !in taken || (taken[|taken| - 1] == NEWLINE && NEWLINE !in taken[..|taken| - 1] && res == |taken|)
    requires NEWLINE !in taken ==> res == -1 || (if |taken| == Room(maxlen) then res == |taken| + 1 else rest == [] && res == |taken|)
    ensures IsReadline(all, taken, rest, maxlen, res)
  {
  }

  lemma Stored(all: seq<byte>, taken: seq<byte>, c: byte, rest: seq<byte>, rest': seq<byte>)
    requires all == taken + rest && rest == [c] + rest' && NEWLINE !in taken
    ensures all == (taken + [c]) + rest'
    ensures (taken + [c])[..|taken|] == taken
    ensures c != NEWLINE ==> NEWLINE !in taken + [c]
  {
  }

  lemma Rejoin(s: seq<byte>, n: nat)
    requires n <= |s|
    ensures s[..n] + s[n..] == s
  {
  }

  lemma FirstOut(buffered: seq<byte>, c: byte, rest: seq<byte>, stream: seq<byte>)
    requires buffered == [c] + rest
    ensures buffered + stream == [c] + (rest + stream)
  {
  }

  /* ---------- lines as a function of the bytes alone ---------- */

  /** How many of the pending bytes make up the next line. */
  function LineLength(p: seq<byte>, maxlen: nat): (k: nat)
    ensures k <= |p| && k <= Room(maxlen)
  {
    if maxlen <= 1 || p == [] then 0
    else if p[0] == NEWLINE then 1
    else 1 + LineLength(p[1..], maxlen - 1)
  }

  /** The next bytes fill the caller's room without a newline among them. */
  predicate Truncates(p: seq<byte>, maxlen: nat) {
    |p| >= Room(maxlen) && NEWLINE !in p[..Room(maxlen)]
  }

  lemma {:induction false} LineLengthShape(p: seq<byte>, maxlen: nat)
    ensures
      var k := LineLength(p, maxlen);
      if k > 0 && p[k - 1] == NEWLINE then NEWLINE !in p[..k - 1]
      else NEWLINE !in p[..k] && (k == Room(maxlen) || k == |p|)
    decreases maxlen
  {
    if maxlen > 1 && p != [] && p[0] != NEWLINE {
      LineLengthShape(p[1..], maxlen - 1);
      var k := LineLength(p, maxlen);
      assert p[..k] == [p[0]] + p[1..][..k - 1];
      if k >= 2 {
        assert p[..k - 1] == [p[0]] + p[1..][..k - 2];
      }
    }
  }

  /** Readline's result is determined by the pending bytes and `maxlen`, not by how they arrive: it is
      the line that LineLength measures, and the result is its length, or one more exactly when the line is truncated. */
  lemma ReadlineDetermined(all: seq<byte>, stored: seq<byte>, rest: seq<byte>, maxlen: nat, res: int)
    requires res >= 0
    ensures IsReadline(all, stored, rest, maxlen, res) <==>
              && stored == all[..LineLength(all, maxlen)]
              && rest == all[LineLength(all, maxlen)..]
              && res == LineLength(all, maxlen) + (if Truncates(all, maxlen) then 1 else 0)
  {
    LineLengthShape(all, maxlen);
    var k, m := LineLength(all, maxlen), |stored|;
    if IsReadline(all, stored, rest, maxlen, res) {
      assert stored == all[..m] && rest == all[m..];
    }
  }

  /** Is the result the number of bytes stored? Exactly when the line is not truncated. */
  lemma ResultIsLength(all: seq<byte>, stored: seq<byte>, rest: seq<byte>, maxlen: nat, res: int)
    requires res >= 0 && IsReadline(all, stored, rest, maxlen, res)
    ensures res == |stored| <==> !Truncates(all, maxlen)
  {
    ReadlineDetermined(all, stored, rest, maxlen, res);
  }

  /** An input on which it is not: "AB" read with room for one byte stores "A" and returns 2. */
  lemma TruncatedResult(stored: seq<byte>, rest: seq<byte>, res: int)
    requires res >= 0 && IsReadline([65, 66], stored, rest, 2, res)
    ensures stored == [65] && res == 2
  {
    var all: seq<byte> := [65, 66];
    ReadlineDetermined(all, stored, rest, 2, res);
    assert all[1..] == [66];
    assert LineLength(all[1..], 1) == 0;
    assert all[..1] == [65];
    assert all[0] == 65;
  }
}
