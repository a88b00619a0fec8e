/** The select loop of the TCP server and its table of clients. */
module SelectServer {
  import opened Stream

  const FD_SETSIZE: nat := 1024
  const MAXLINE: nat := 80

  datatype Event = Accepted(fd: int) | Closed(fd: int) | Echoed(fd: int, data: seq<byte>)

  function ToUpper(c: byte): byte { if 97 <= c <= 122 then c - 32 else c }

  function Upper(s: seq<byte>): seq<byte> {
    seq(|s|, i requires 0 <= i < |s| => ToUpper(s[i]))
  }

  /** The loop over `buf[j] = toupper(buf[j])`. */
  method UpperCase(buf: array<byte>, n: nat)
    requires n <= buf.Length
    modifies buf
    ensures buf[..n] == Upper(old(buf[..n]))
  {
    ghost var was := buf[..n];
    for j := 0 to n
      invariant buf[..j] == Upper(was[..j]) && buf[j..n] == was[j..]
    {
      assert buf[j..n][0] == was[j];
      ghost var rest := buf[j + 1..n];
      assert rest == buf[j..n][1..];
      buf[j] := ToUpper(buf[j]);
      assert Upper(was[..j + 1]) == Upper(was[..j]) + [ToUpper(was[j])];
      assert buf[j + 1..n] == rest;
    }
    assert was[..n] == was;
  }

  /* ---------- the table ---------- */

  /** The descriptors stored in the slots from `lo` on. */
  function ClientsFrom(table: seq<int>, lo: nat): set<int>
    requires lo <= |table|
  {
    set i | lo <= i < |table| && table[i] >= 0 :: table[i]
  }

  function Clients(table: seq<int>): set<int> { ClientsFrom(table, 0) }

  predicate Distinct(table: seq<int>) {
    forall i, j :: 0 <= i < j < |table| && table[i] >= 0 ==> table[i] != table[j]
  }

  /** The first slot that holds no client, or the length of a full table. */
  function FirstFree(table: seq<int>): (i: nat)
    ensures i <= |table|
  {
    if table == [] || table[0] < 0 then 0 else 1 + FirstFree(table[1..])
  }

  lemma {:induction false} FirstFreeIs(table: seq<int>, i: nat)
    requires i < |table| && table[i] < 0 && forall k :: 0 <= k < i ==> table[k] >= 0
    ensures FirstFree(table) == i
    decreases i
  {
    if i > 0 {
      FirstFreeIs(table[1..], i - 1);
    }
  }

  lemma {:induction false} NoneFree(table: seq<int>)
    requires forall k :: 0 <= k < |table| ==> table[k] >= 0
    ensures FirstFree(table) == |table|
  {
    if table != [] {
      NoneFree(table[1..]);
    }
  }

  lemma {:induction false} FirstFreeFree(table: seq<int>)
    ensures FirstFree(table) < |table| ==> table[FirstFree(table)] < 0
    ensures forall k :: 0 <= k < FirstFree(table) ==> table[k] >= 0
  {
    if table != [] && table[0] >= 0 {
      FirstFreeFree(table[1..]);
      assert forall k :: 1 <= k < |table| ==> table[k] == table[1..][k - 1];
    }
  }

  /** What serving one ready descriptor amounts to: `data` is what Read delivers, empty at the end of input. */
  function Serve(fd: int, input: map<int, seq<byte>>): Event {
    if fd in input && input[fd] != [] then Echoed(fd, Upper(input[fd])) else Closed(fd)
  }

  /** Every ready client in the first `n` slots, served in slot order. */
  function ServedUpto(table: seq<int>, n: nat, rset: set<int>, input: map<int, seq<byte>>): seq<Event>
    requires n <= |table|
  {
    if n == 0 then []
    else ServedUpto(table, n - 1, rset, input)
         + (if table[n - 1] >= 0 && table[n - 1] in rset then [Serve(table[n - 1], input)] else [])
  }

  /** A slot after the round: freed if its client was ready and had closed. */
  function SlotAfter(fd: int, rset: set<int>, input: map<int, seq<byte>>): int {
    if fd >= 0 && fd in rset && Serve(fd, input).Closed? then -1 else fd
  }

  /** The table when the first `n` slots have been looked at. */
  function TableUpto(table: seq<int>, n: nat, rset: set<int>, input: map<int, seq<byte>>): seq<int> {
    seq(|table|, k requires 0 <= k < |table| => if k < n then SlotAfter(table[k], rset, input) else table[k])
  }

  /** The ready clients whose input has ended. */
  function Gone(ready: set<int>, input: map<int, seq<byte>>): set<int> {
    set fd | fd in ready && Serve(fd, input).Closed?
  }

  function Fds(events: seq<Event>): seq<int> {
    seq(|events|, i requires 0 <= i < |events| => events[i].fd)
  }

  lemma NoneReady(table: seq<int>, lo: nat, rset: set<int>)
    requires lo <= |table| && rset * ClientsFrom(table, lo) == {}
    ensures forall k :: lo <= k < |table| && table[k] >= 0 ==> table[k] !in rset
  {
    forall k | lo <= k < |table| && table[k] >= 0 ensures table[k] !in rset {
      var fd := table[k];
      assert fd in ClientsFrom(table, lo);
      assert fd !in rset * ClientsFrom(table, lo);
    }
  }

  lemma {:induction false} NothingServed(table: seq<int>, lo: nat, n: nat, rset: set<int>, input: map<int, seq<byte>>)
    requires lo <= n <= |table|
    requires forall k :: lo <= k < |table| && table[k] >= 0 ==> table[k] !in rset
    ensures ServedUpto(table, n, rset, input) == ServedUpto(table, lo, rset, input)
    decreases n
  {
    if n > lo {
      NothingServed(table, lo, n - 1, rset, input);
    }
  }

  /** The ready clients in the slots before `i`. */
  function Passed(table: seq<int>, i: nat, rset: set<int>): set<int>
    requires i <= |table|
  {
    rset * Clients(table) - ClientsFrom(table, i)
  }

  lemma NextTable(table: seq<int>, i: nat, rset: set<int>, input: map<int, seq<byte>>)
    requires i < |table|
    ensures TableUpto(table, i, rset, input)[i] == table[i]
    ensures TableUpto(table, i, rset, input)[i := SlotAfter(table[i], rset, input)] == TableUpto(table, i + 1, rset, input)
    ensures SlotAfter(table[i], rset, input) == table[i] ==>
              TableUpto(table, i + 1, rset, input) == TableUpto(table, i, rset, input)
  {
  }

  lemma OneMoreGone(open: set<int>, ready: set<int>, fd: int, input: map<int, seq<byte>>)
    ensures open - Gone(ready + {fd}, input)
         == if Serve(fd, input).Closed? then (open - Gone(ready, input)) - {fd} else open - Gone(ready, input)
  {
    assert Gone(ready + {fd}, input) == Gone(ready, input) + (if Serve(fd, input).Closed? then {fd} else {});
  }

  /** One slot further: one ready client fewer, or the same. */
  lemma ReadySlot(table: seq<int>, i: nat, rset: set<int>)
    requires i < |table| && Distinct(table) && table[i] >= 0 && table[i] in rset
    ensures rset * ClientsFrom(table, i + 1) == rset * ClientsFrom(table, i) - {table[i]}
    ensures |rset * ClientsFrom(table, i + 1)| == |rset * ClientsFrom(table, i)| - 1
    ensures Passed(table, i + 1, rset) == Passed(table, i, rset) + {table[i]}
  {
    var fd := table[i];
    assert fd in ClientsFrom(table, i) && fd in Clients(table) && fd !in ClientsFrom(table, i + 1);
    assert ClientsFrom(table, i) == ClientsFrom(table, i + 1) + {fd};
    var now := rset * ClientsFrom(table, i);
    assert fd in now && rset * ClientsFrom(table, i + 1) == now - {fd};
  }

  lemma IdleSlot(table: seq<int>, i: nat, rset: set<int>)
    requires i < |table| && !(table[i] >= 0 && table[i] in rset)
    ensures rset * ClientsFrom(table, i + 1) == rset * ClientsFrom(table, i)
    ensures Passed(table, i + 1, rset) == Passed(table, i, rset)
  {
    if table[i] >= 0 {
      assert ClientsFrom(table, i) == ClientsFrom(table, i + 1) + {table[i]};
    } else {
      assert ClientsFrom(table, i) == ClientsFrom(table, i + 1);
    }
    assert rset * ClientsFrom(table, i + 1) == rset * ClientsFrom(table, i);
  }

  /** Where the loop over the slots stands before slot `i`. */
  ghost predicate Progress(table: seq<int>, i: nat, rset: set<int>, input: map<int, seq<byte>>, open: set<int>,
                           left: int, events: seq<Event>, table': seq<int>, allset: set<int>)
    requires i <= |table|
  {
    && left == |rset * ClientsFrom(table, i)|
    && events == ServedUpto(table, i, rset, input)
    && table' == TableUpto(table, i, rset, input)
    && allset == open - Gone(Passed(table, i, rset), input)
  }

  lemma ProgressReady(table: seq<int>, i: nat, rset: set<int>, input: map<int, seq<byte>>, open: set<int>,
                      left: int, events: seq<Event>, table': seq<int>, allset: set<int>)
    requires i < |table| && Distinct(table) && table[i] >= 0 && table[i] in rset
    requires Progress(table, i, rset, input, open, left, events, table', allset)
    ensures table'[i] == table[i]
    ensures
      var event := Serve(table[i], input);
      Progress(table, i + 1, rset, input, open, left - 1, events + [event],
               table'[i := if event.Closed? then -1 else table[i]], if event.Closed? then allset - {table[i]} else allset)
  {
    ReadySlot(table, i, rset);
    NextTable(table, i, rset, input);
    OneMoreGone(open, Passed(table, i, rset), table[i], input);
    var event := Serve(table[i], input);
    assert ServedUpto(table, i + 1, rset, input) == events + [event];
  }

  lemma ProgressIdle(table: seq<int>, i: nat, rset: set<int>, input: map<int, seq<byte>>, open: set<int>,
                     left: int, events: seq<Event>, table': seq<int>, allset: set<int>)
    requires i < |table| && !(table[i] >= 0 && table[i] in rset)
    requires Progress(table, i, rset, input, open, left, events, table', allset)
    ensures table'[i] == table[i]
    ensures Progress(table, i + 1, rset, input, open, left, events, table', allset)
  {
    IdleSlot(table, i, rset);
    NextTable(table, i, rset, input);
    assert events + [] == events;
  }

  lemma ClientsGrow(table: seq<int>, n: nat, rset: set<int>)
    requires 0 < n <= |table| && Distinct(table)
    ensures
      var before, fd := rset * Clients(table[..n - 1]), table[n - 1];
      if fd >= 0 && fd in rset then fd !in before && rset * Clients(table[..n]) == before + {fd}
      else rset * Clients(table[..n]) == before
  {
    var fd := table[n - 1];
    forall x | x in Clients(table[..n]) ensures x in Clients(table[..n - 1]) || x == fd {
      var k :| 0 <= k < n && table[..n][k] == x && x >= 0;
      assert k < n - 1 ==> table[..n - 1][k] == x;
    }
    forall x | x in Clients(table[..n - 1]) ensures x in Clients(table[..n]) && x != fd {
      var k :| 0 <= k < n - 1 && table[..n - 1][k] == x && x >= 0;
      assert table[..n][k] == x && table[k] == x;
    }
    assert table[..n][n - 1] == fd;
  }

  /** In a table without duplicates the served descriptors are the ready ones, each once. */
  lemma {:induction false} ServedOnce(table: seq<int>, n: nat, rset: set<int>, input: map<int, seq<byte>>)
    requires n <= |table| && Distinct(table)
    ensures multiset(Fds(ServedUpto(table, n, rset, input))) == multiset(rset * Clients(table[..n]))
    decreases n
  {
    if n == 0 {
      assert rset * Clients(table[..0]) == {};
    } else {
      ServedOnce(table, n - 1, rset, input);
      var before, fd := rset * Clients(table[..n - 1]), table[n - 1];
      var events := ServedUpto(table, n - 1, rset, input);
      ClientsGrow(table, n, rset);
      if fd >= 0 && fd in rset {
        assert Fds(events + [Serve(fd, input)]) == Fds(events) + [fd];
        assert multiset(before + {fd}) == multiset(before) + multiset{fd};
      } else {
        assert events + [] == events;
      }
    }
  }

  /* ---------- the server ---------- */

  /** allset is the listening descriptor and the clients in the table, which are all different, in
      slots up to maxi, and none above maxfd. */
  ghost predicate Consistent(table: seq<int>, listenfd: int, maxi: int, maxfd: int, allset: set<int>) {
    && listenfd >= 0
    && -1 <= maxi < |table|
    && Distinct(table)
    && listenfd !in Clients(table)
    && (forall i :: maxi < i < |table| ==> table[i] < 0)
    && allset == {listenfd} + Clients(table)
    && (forall fd :: fd in allset ==> fd <= maxfd)
  }

  lemma StaysConsistent(table: seq<int>, listenfd: int, maxi: int, maxfd: int, allset: set<int>,
                        rset: set<int>, input: map<int, seq<byte>>)
    requires Consistent(table, listenfd, maxi, maxfd, allset)
    ensures Consistent(TableUpto(table, |table|, rset, input), listenfd, maxi, maxfd, allset - Gone(rset * Clients(table), input))
  {
    TableAfter(table, rset, input);
  }

  class Server {
    const listenfd: int
    const client: array<int>
    const buf: array<byte>
    var maxi: int
    var maxfd: int
    var allset: set<int>

    ghost predicate Valid()
      reads this, client
    {
      && client.Length == FD_SETSIZE && buf.Length == MAXLINE
      && Consistent(client[..], listenfd, maxi, maxfd, allset)
    }

    constructor (listenfd: int)
      requires listenfd >= 0
      ensures Valid() && fresh(client) && fresh(buf)
      ensures this.listenfd == listenfd && allset == {listenfd} && Clients(client[..]) == {}
    {
      this.listenfd := listenfd;
      client := new int[FD_SETSIZE](_ => -1);
      buf := new byte[MAXLINE](_ => 0);
      maxi, maxfd, allset := -1, listenfd, {listenfd};
    }

    /** A new connection: the first free slot takes it; without a free slot the program exits. */
    method AddClient(connfd: int) returns (full: bool)
      requires Valid() && connfd >= 0 && connfd !in allset
      modifies this, client
      ensures full <==> FirstFree(old(client[..])) == FD_SETSIZE
      ensures full ==> client[..] == old(client[..]) && allset == old(allset)
      ensures !full ==> Valid()
      ensures !full ==> allset == old(allset) + {connfd}
      ensures !full ==> client[..] == old(client[..])[FirstFree(old(client[..])) := connfd]
      ensures !full ==> maxi == (if FirstFree(old(client[..])) > old(maxi) then FirstFree(old(client[..])) else old(maxi))
      ensures !full ==> maxfd == (if connfd > old(maxfd) then connfd else old(maxfd))
    {
      var i := 0;
      while i < FD_SETSIZE && client[i] >= 0
        invariant 0 <= i <= FD_SETSIZE
        invariant forall k :: 0 <= k < i ==> client[k] >= 0
      {
        i := i + 1;
      }
      ghost var table := client[..];
      if i == FD_SETSIZE {
        NoneFree(table);
        return true;
      }
      client[i] := connfd;
      allset := allset + {connfd};
      if connfd > maxfd {
        maxfd := connfd;
      }
      if i > maxi {
        maxi := i;
      }
      AddedClient(table, i, connfd);
      FirstFreeIs(table, i);
      assert client[..] == table[i := connfd];
      return false;
    }

    /** The loop over the slots, left early when the count of ready descriptors runs out. It stops
        before slot `stop` with `left` of them unserved. */
    method VisitSlots(nready: nat, rset: set<int>, input: map<int, seq<byte>>, ghost table: seq<int>, ghost open: set<int>)
      returns (events: seq<Event>, stop: nat, left: int)
      requires client.Length == FD_SETSIZE && buf.Length == MAXLINE && -1 <= maxi < FD_SETSIZE
      requires Distinct(table) && table == client[..] && open == allset
      requires nready == |rset * Clients(table)|
      requires forall fd :: fd in input ==> |input[fd]| <= MAXLINE
      modifies this`allset, client, buf
      ensures stop <= FD_SETSIZE && (stop == maxi + 1 || left == 0)
      ensures Progress(table, stop, rset, input, open, left, events, client[..], allset)
    {
      left, events := nready, [];
      var i := 0;
      Starting(table, rset, input, open, left);
      while i <= maxi
        invariant 0 <= i <= maxi + 1
        invariant client.Length == FD_SETSIZE && buf.Length == MAXLINE
        invariant Progress(table, i, rset, input, open, left, events, client[..], allset)
      {
        var sockfd := client[i];
        assert sockfd == client[..][i] == table[i];
        if sockfd >= 0 && sockfd in rset {
          ProgressReady(table, i, rset, input, open, left, events, client[..], allset);
          var event := ServeSlot(i, sockfd, input);
          events := events + [event];
          left := left - 1;
          if left == 0 {
            i := i + 1;
            break;
          }
        } else {
          ProgressIdle(table, i, rset, input, open, left, events, client[..], allset);
        }
        i := i + 1;
      }
      assert i == maxi + 1 || left == 0;
      stop := i;
    }

    /** All ready clients are served, each once and in slot order, although the loop may stop early. */
    method ServeClients(nready: nat, rset: set<int>, input: map<int, seq<byte>>) returns (events: seq<Event>)
      requires Valid()
      requires nready == |rset * Clients(client[..])|
      requires forall fd :: fd in input ==> |input[fd]| <= MAXLINE
      modifies this`allset, client, buf
      ensures Valid()
      ensures events == ServedUpto(old(client[..]), FD_SETSIZE, rset, input)
      ensures client[..] == TableUpto(old(client[..]), FD_SETSIZE, rset, input)
      ensures allset == old(allset) - Gone(rset * Clients(old(client[..])), input)
    {
      ghost var table, open := client[..], allset;
      var i, left;
      events, i, left := VisitSlots(nready, rset, input, table, open);
      Finished(table, i, maxi, rset, input, open, left, events, client[..], allset);
      StaysConsistent(table, listenfd, maxi, maxfd, open, rset, input);
    }

    /** One ready client: at the end of its input it is closed and its slot freed, otherwise its bytes go back in upper case. */
    method ServeSlot(i: nat, sockfd: int, input: map<int, seq<byte>>) returns (event: Event)
      requires client.Length == FD_SETSIZE && buf.Length == MAXLINE
      requires i < FD_SETSIZE && client[i] == sockfd
      requires sockfd in input ==> |input[sockfd]| <= MAXLINE
      modifies this`allset, client, buf
      ensures event == Serve(sockfd, input)
      ensures client[..] == old(client[..])[i := if event.Closed? then -1 else sockfd]
      ensures allset == if event.Closed? then old(allset) - {sockfd} else old(allset)
    {
      var data := if sockfd in input then input[sockfd] else [];
      var n := |data|;
      if n == 0 {
        allset := allset - {sockfd};
        client[i] := -1;
        event := Closed(sockfd);
      } else {
        forall j | 0 <= j < n {
          buf[j] := data[j];
        }
        assert buf[..n] == data;
        UpperCase(buf, n);
        event := Echoed(sockfd, buf[..n]);
      }
    }

    /** One round: `select` has returned `nready` with the descriptors in `rset`; `connfd` is what
        Accept would give and `input` what Read would deliver. The result says whether the program goes on. */
    method Round(nready: int, rset: set<int>, connfd: int, input: map<int, seq<byte>>)
      returns (goesOn: bool, events: seq<Event>)
      requires Valid()
      requires nready < 0 || (rset <= allset && nready == |rset|)
      requires listenfd in rset ==> connfd >= 0 && connfd !in allset
      requires forall fd :: fd in input ==> |input[fd]| <= MAXLINE
      modifies this, client, buf
      ensures !goesOn <==> nready < 0 || (listenfd in rset && FirstFree(old(client[..])) == FD_SETSIZE)
      ensures !goesOn ==> events == []
      ensures goesOn ==> Valid()
      ensures goesOn ==> IsRound(old(client[..]), old(allset), listenfd, rset, connfd, input, events, client[..], allset)
    {
      ghost var table, open := client[..], allset;
      if nready < 0 {
        return false, [];
      }
      var left := nready;
      events := [];
      if listenfd in rset {
        var full := AddClient(connfd);
        if full {
          return false, [];
        }
        events := [Accepted(connfd)];
        left := left - 1;
        if left == 0 {
          NothingElseReady(table, listenfd, old(maxi), old(maxfd), open, connfd, rset, input);
          return true, events;
        }
      }
      ServingCompletes(table, listenfd, old(maxi), old(maxfd), open, connfd, rset, input);
      var served := ServeClients(left, rset, input);
      goesOn, events := true, events + served;
    }
  }

  /** The table with a new client in its first free slot. */
  function Admitted(table: seq<int>, incoming: bool, connfd: int): seq<int> {
    if incoming && FirstFree(table) < |table| then table[FirstFree(table) := connfd] else table
  }

  /** What a round does: the new connection first, then the ready clients of the table as it was. */
  function RoundEvents(table: seq<int>, listenfd: int, rset: set<int>, connfd: int, input: map<int, seq<byte>>): seq<Event> {
    Accepts(listenfd in rset, connfd) + ServedUpto(table, |table|, rset, input)
  }

  ghost predicate IsRound(table: seq<int>, allset: set<int>, listenfd: int, rset: set<int>, connfd: int,
                          input: map<int, seq<byte>>, events: seq<Event>, table': seq<int>, allset': set<int>)
  {
    && events == RoundEvents(table, listenfd, rset, connfd, input)
    && table' == TableUpto(Admitted(table, listenfd in rset, connfd), |table|, rset, input)
    && allset' == (if listenfd in rset then allset + {connfd} else allset) - Gone(rset - {listenfd}, input)
  }

  function Accepts(incoming: bool, connfd: int): seq<Event> { if incoming then [Accepted(connfd)] else [] }

  /** Once the new connection, if any, is in: the clients still to be served are the descriptors select
      reported besides the listening one, and serving them completes the round. */
  lemma ServingCompletes(table: seq<int>, listenfd: int, maxi: int, maxfd: int, allset: set<int>,
                         connfd: int, rset: set<int>, input: map<int, seq<byte>>)
    requires Consistent(table, listenfd, maxi, maxfd, allset) && rset <= allset
    requires listenfd in rset ==> connfd >= 0 && connfd !in allset && FirstFree(table) < |table|
    ensures
      var table1 := Admitted(table, listenfd in rset, connfd);
      var allset1 := if listenfd in rset then allset + {connfd} else allset;
      && |rset * Clients(table1)| == |rset| - |Accepts(listenfd in rset, connfd)|
      && IsRound(table, allset, listenfd, rset, connfd, input,
                 Accepts(listenfd in rset, connfd) + ServedUpto(table1, |table|, rset, input),
                 TableUpto(table1, |table|, rset, input), allset1 - Gone(rset * Clients(table1), input))
  {
    ReadyAfter(table, listenfd, maxi, maxfd, allset, connfd, rset, input);
  }

  /** And if the listening descriptor was the only one, the round is complete at once. */
  lemma NothingElseReady(table: seq<int>, listenfd: int, maxi: int, maxfd: int, allset: set<int>,
                         connfd: int, rset: set<int>, input: map<int, seq<byte>>)
    requires Consistent(table, listenfd, maxi, maxfd, allset) && rset <= allset
    requires listenfd in rset && connfd >= 0 && connfd !in allset && FirstFree(table) < |table|
    requires |rset| == 1
    ensures IsRound(table, allset, listenfd, rset, connfd, input, [Accepted(connfd)],
                    Admitted(table, true, connfd), allset + {connfd})
  {
    ReadyAfter(table, listenfd, maxi, maxfd, allset, connfd, rset, input);
    var table1 := Admitted(table, true, connfd);
    assert rset - {listenfd} == {};
    NobodyReady(table1, rset, input);
    assert [Accepted(connfd)] + ServedUpto(table, |table|, rset, input) == [Accepted(connfd)];
    assert Gone({}, input) == {};
  }

  lemma ReadyAfter(table: seq<int>, listenfd: int, maxi: int, maxfd: int, allset: set<int>,
                   connfd: int, rset: set<int>, input: map<int, seq<byte>>)
    requires Consistent(table, listenfd, maxi, maxfd, allset) && rset <= allset
    requires listenfd in rset ==> connfd >= 0 && connfd !in allset && FirstFree(table) < |table|
    ensures
      var table1 := Admitted(table, listenfd in rset, connfd);
      && rset * Clients(table1) == rset - {listenfd}
      && |rset - {listenfd}| == |rset| - (if listenfd in rset then 1 else 0)
      && ServedUpto(table1, |table|, rset, input) == ServedUpto(table, |table|, rset, input)
  {
    assert rset * Clients(table) == rset - {listenfd};
    if listenfd in rset {
      FirstFreeFree(table);
      NotReadThisRound(table, FirstFree(table), connfd, rset, input);
    } else {
      assert rset - {listenfd} == rset;
    }
  }

  lemma NobodyReady(table: seq<int>, rset: set<int>, input: map<int, seq<byte>>)
    requires rset * Clients(table) == {}
    ensures ServedUpto(table, |table|, rset, input) == []
    ensures Gone(rset * Clients(table), input) == {}
    ensures TableUpto(table, |table|, rset, input) == table
  {
    NoneReady(table, 0, rset);
    NothingServed(table, 0, |table|, rset, input);
  }

  /** The client that takes slot `i` in this round is not among the descriptors select reported. */
  lemma NotReadThisRound(table: seq<int>, i: nat, connfd: int, rset: set<int>, input: map<int, seq<byte>>)
    requires i < |table| && table[i] < 0 && connfd >= 0 && connfd !in rset && connfd !in Clients(table) && Distinct(table)
    ensures rset * Clients(table[i := connfd]) == rset * Clients(table)
    ensures ServedUpto(table[i := connfd], |table|, rset, input) == ServedUpto(table, |table|, rset, input)
  {
    AddedClient(table, i, connfd);
    SameServed(table, table[i := connfd], |table|, rset, input);
  }

  lemma {:induction false} SameServed(table: seq<int>, table': seq<int>, n: nat, rset: set<int>, input: map<int, seq<byte>>)
    requires |table'| == |table| && n <= |table|
    requires forall k :: 0 <= k < |table| ==>
               table'[k] == table[k] || ((table[k] < 0 || table[k] !in rset) && (table'[k] < 0 || table'[k] !in rset))
    ensures ServedUpto(table', n, rset, input) == ServedUpto(table, n, rset, input)
    decreases n
  {
    if n > 0 {
      SameServed(table, table', n - 1, rset, input);
    }
  }

  lemma AddedClient(table: seq<int>, i: nat, connfd: int)
    requires i < |table| && table[i] < 0 && connfd >= 0 && connfd !in Clients(table) && Distinct(table)
    ensures Distinct(table[i := connfd])
    ensures Clients(table[i := connfd]) == Clients(table) + {connfd}
  {
    var table' := table[i := connfd];
    forall fd | fd in Clients(table) + {connfd} ensures fd in Clients(table') {
      if fd == connfd {
        assert table'[i] == connfd;
      } else {
        var k :| 0 <= k < |table| && table[k] == fd && fd >= 0;
        assert table'[k] == fd;
      }
    }
    forall k | 0 <= k < |table| && table[k] >= 0 ensures table[k] != connfd {
      assert table[k] in Clients(table);
    }
  }

  lemma Starting(table: seq<int>, rset: set<int>, input: map<int, seq<byte>>, open: set<int>, left: int)
    requires left == |rset * Clients(table)|
    ensures Progress(table, 0, rset, input, open, left, [], table, open)
  {
    assert Passed(table, 0, rset) == {};
    assert Gone({}, input) == {};
  }

  /** When the loop stops at slot `i`, either no slot is left or nobody in the remaining slots is ready:
      it is as if all slots had been looked at. */
  lemma Finished(table: seq<int>, i: nat, maxi: int, rset: set<int>, input: map<int, seq<byte>>, open: set<int>,
                 left: int, events: seq<Event>, table': seq<int>, allset: set<int>)
    requires i <= |table| && -1 <= maxi < |table|
    requires forall k :: maxi < k < |table| ==> table[k] < 0
    requires Progress(table, i, rset, input, open, left, events, table', allset)
    requires i == maxi + 1 || left == 0
    ensures events == ServedUpto(table, |table|, rset, input)
    ensures table' == TableUpto(table, |table|, rset, input)
    ensures allset == open - Gone(rset * Clients(table), input)
  {
    assert i == maxi + 1 ==> ClientsFrom(table, i) == {};
    assert rset * ClientsFrom(table, i) == {};
    assert Passed(table, i, rset) == rset * Clients(table);
    NoneReady(table, i, rset);
    NothingServed(table, i, |table|, rset, input);
  }

  lemma TableAfter(table: seq<int>, rset: set<int>, input: map<int, seq<byte>>)
    requires Distinct(table)
    ensures
      var table' := TableUpto(table, |table|, rset, input);
      && Distinct(table')
      && Clients(table') == Clients(table) - Gone(rset * Clients(table), input)
  {
    var table' := TableUpto(table, |table|, rset, input);
    forall fd | fd in Clients(table) - Gone(rset * Clients(table), input) ensures fd in Clients(table') {
      var k :| 0 <= k < |table| && table[k] == fd && fd >= 0;
      assert table'[k] == fd;
    }
    forall fd | fd in Clients(table') ensures fd in Clients(table) - Gone(rset * Clients(table), input) {
      var k :| 0 <= k < |table| && table'[k] == fd && fd >= 0;
      assert table[k] == fd;
    }
  }

  /* ---------- the main results ---------- */

  /** In a round every descriptor select reported, besides the listening one, is read exactly once, and
      no other is; in particular not the client accepted in this round. */
  lemma EachReadyOnce(table: seq<int>, listenfd: int, maxi: int, maxfd: int, allset: set<int>,
                      connfd: int, rset: set<int>, input: map<int, seq<byte>>)
    requires Consistent(table, listenfd, maxi, maxfd, allset) && rset <= allset
    requires listenfd in rset ==> connfd >= 0 && connfd !in allset
    ensures
      var served := RoundEvents(table, listenfd, rset, connfd, input)[if listenfd in rset then 1 else 0..];
      && multiset(Fds(served)) == multiset(rset - {listenfd})
      && (listenfd in rset ==> connfd !in Fds(served))
  {
    ServedOnce(table, |table|, rset, input);
    assert table[..|table|] == table;
    assert rset * Clients(table) == rset - {listenfd};
    var all := RoundEvents(table, listenfd, rset, connfd, input);
    var served := all[if listenfd in rset then 1 else 0..];
    assert served == ServedUpto(table, |table|, rset, input);
    if connfd in Fds(served) {
      assert connfd in multiset(Fds(served));
    }
  }

  /** What the server owes a ready client. At the end of its input it is closed; otherwise each of its bytes
      comes back, a lower-case letter as the capital 32 below it and every other byte as it is. */
  ghost predicate Answers(e: Event, rset: set<int>, input: map<int, seq<byte>>) {
    && e.fd in rset
    && if e.fd in input && input[e.fd] != [] then
         && e.Echoed?
         && |e.data| == |input[e.fd]|
         && forall j :: 0 <= j < |e.data| ==>
              var c := input[e.fd][j] as int;
              e.data[j] as int == if 97 <= c <= 122 then c - 32 else c
       else e.Closed?
  }

  lemma {:induction false} AllAnswers(table: seq<int>, n: nat, rset: set<int>, input: map<int, seq<byte>>)
    requires n <= |table|
    ensures forall i :: 0 <= i < |ServedUpto(table, n, rset, input)| ==> Answers(ServedUpto(table, n, rset, input)[i], rset, input)
    decreases n
  {
    if n > 0 {
      AllAnswers(table, n - 1, rset, input);
    }
  }

  /** The clients that `input` gives no bytes, for which Read returns 0. */
  ghost function AtEnd(ready: set<int>, input: map<int, seq<byte>>): set<int> {
    set fd | fd in ready && !(fd in input && input[fd] != [])
  }

  lemma GoneAreAtEnd(ready: set<int>, input: map<int, seq<byte>>)
    ensures Gone(ready, input) == AtEnd(ready, input)
  {
  }

  /** From index `start` on, every event answers a ready client, and every ready client is answered, once. */
  ghost predicate AllAnswered(events: seq<Event>, start: nat, ready: set<int>, input: map<int, seq<byte>>) {
    && |events| == start + |ready|
    && (forall i :: start <= i < |events| ==> Answers(events[i], ready, input))
    && (forall fd :: fd in ready ==> exists i :: start <= i < |events| && events[i].fd == fd)
  }

  lemma EachAnswered(served: seq<Event>, ready: set<int>, rset: set<int>, input: map<int, seq<byte>>)
    requires multiset(Fds(served)) == multiset(ready)
    requires forall i :: 0 <= i < |served| ==> Answers(served[i], rset, input)
    ensures AllAnswered(served, 0, ready, input)
  {
    assert |multiset(Fds(served))| == |served|;
    forall i | 0 <= i < |served| ensures served[i].fd in ready {
      assert Fds(served)[i] == served[i].fd;
      assert served[i].fd in multiset(Fds(served));
    }
    forall fd | fd in ready ensures exists i :: 0 <= i < |served| && served[i].fd == fd {
      assert fd in multiset(Fds(served));
      var i :| 0 <= i < |served| && Fds(served)[i] == fd;
      assert served[i].fd == fd;
    }
  }

  lemma AnsweredBehind(first: seq<Event>, served: seq<Event>, ready: set<int>, input: map<int, seq<byte>>)
    requires AllAnswered(served, 0, ready, input)
    ensures AllAnswered(first + served, |first|, ready, input)
  {
    hide Answers;
    var events := first + served;
    assert forall i :: |first| <= i < |events| ==> events[i] == served[i - |first|];
    forall fd | fd in ready ensures exists i :: |first| <= i < |events| && events[i].fd == fd {
      var i :| 0 <= i < |served| && served[i].fd == fd;
      assert events[|first| + i].fd == fd;
    }
  }

  lemma ServedAreReady(table: seq<int>, listenfd: int, maxi: int, maxfd: int, allset: set<int>,
                       rset: set<int>, input: map<int, seq<byte>>)
    requires Consistent(table, listenfd, maxi, maxfd, allset) && rset <= allset
    ensures multiset(Fds(ServedUpto(table, |table|, rset, input))) == multiset(rset - {listenfd})
  {
    ServedOnce(table, |table|, rset, input);
    assert table[..|table|] == table;
    assert rset * Clients(table) == rset - {listenfd};
  }

  /** What a round does, said of the descriptors and their input alone: after the accept, if there is one,
      come the answers to the ready clients. */
  lemma RoundAnswers(table: seq<int>, listenfd: int, maxi: int, maxfd: int, allset: set<int>, connfd: int, rset: set<int>,
                     input: map<int, seq<byte>>, events: seq<Event>, table': seq<int>, allset': set<int>)
    requires Consistent(table, listenfd, maxi, maxfd, allset) && rset <= allset
    requires listenfd in rset ==> connfd >= 0 && connfd !in allset
    requires IsRound(table, allset, listenfd, rset, connfd, input, events, table', allset')
    ensures
      var first := if listenfd in rset then [Accepted(connfd)] else [];
      first <= events && AllAnswered(events, |first|, rset - {listenfd}, input)
  {
    hide Consistent, Answers, AllAnswered, TableUpto, Gone, ServedUpto;
    var first, ready := (if listenfd in rset then [Accepted(connfd)] else []), rset - {listenfd};
    var served := ServedUpto(table, |table|, rset, input);
    ServedAreReady(table, listenfd, maxi, maxfd, allset, rset, input);
    AllAnswers(table, |table|, rset, input);
    EachAnswered(served, ready, rset, input);
    AnsweredBehind(first, served, ready, input);
    assert events == first + served;
  }

  lemma SlotsAtEnd(table: seq<int>, ready: set<int>, rset: set<int>, input: map<int, seq<byte>>)
    requires rset * Clients(table) == ready
    ensures forall k :: 0 <= k < |table| ==>
              TableUpto(table, |table|, rset, input)[k] == if table[k] in AtEnd(ready, input) then -1 else table[k]
  {
    forall k | 0 <= k < |table| && table[k] >= 0 ensures table[k] in Clients(table) {
    }
  }

  /** The ready clients without input, and no others, leave the table and allset; every other slot keeps its
      client, and the new one is in the first free slot. */
  lemma RoundTable(table: seq<int>, listenfd: int, maxi: int, maxfd: int, allset: set<int>, connfd: int, rset: set<int>,
                   input: map<int, seq<byte>>, events: seq<Event>, table': seq<int>, allset': set<int>)
    requires Consistent(table, listenfd, maxi, maxfd, allset) && rset <= allset
    requires listenfd in rset ==> connfd >= 0 && connfd !in allset && FirstFree(table) < |table|
    requires IsRound(table, allset, listenfd, rset, connfd, input, events, table', allset')
    ensures
      var atEnd := AtEnd(rset - {listenfd}, input);
      && allset' == (if listenfd in rset then allset + {connfd} else allset) - atEnd
      && |table'| == |table|
      && forall k :: 0 <= k < |table| ==>
           table'[k] == if listenfd in rset && k == FirstFree(table) then connfd
                        else if table[k] in atEnd then -1 else table[k]
  {
    var table1 := Admitted(table, listenfd in rset, connfd);
    var ready := rset - {listenfd};
    assert |table1| == |table|;
    assert connfd in ready ==> connfd in rset;
    assert rset * Clients(table1) == ready by {
      ReadyAfter(table, listenfd, maxi, maxfd, allset, connfd, rset, input);
    }
    hide Consistent, Clients;
    GoneAreAtEnd(ready, input);
    SlotsAtEnd(table1, ready, rset, input);
  }

  lemma {:induction false} ClientsCount(table: seq<int>)
    requires Distinct(table) && forall k :: 0 <= k < |table| ==> table[k] >= 0
    ensures |Clients(table)| == |table|
    decreases |table|
  {
    if table == [] {
      assert Clients(table) == {};
    } else {
      var init, last := table[..|table| - 1], table[|table| - 1];
      ClientsCount(init);
      forall x | x in Clients(table) ensures x in Clients(init) || x == last {
        var k :| 0 <= k < |table| && table[k] == x;
        assert k < |init| ==> init[k] == x;
      }
      forall x | x in Clients(init) ensures x in Clients(table) && x != last {
        var k :| 0 <= k < |init| && init[k] == x;
        assert table[k] == x;
      }
      assert last in Clients(table);
      assert Clients(table) == Clients(init) + {last};
    }
  }

  lemma {:induction false} BoundedSet(s: set<int>, n: nat)
    requires forall x :: x in s ==> 0 <= x < n
    ensures |s| <= n
    decreases n
  {
    if n == 0 {
      forall x ensures x !in s {
      }
      assert |s| == 0;
    } else {
      var rest := s - {n - 1};
      BoundedSet(rest, n - 1);
      if n - 1 in s {
        assert s == rest + {n - 1};
      } else {
        assert s == rest;
      }
    }
  }

  /** If all descriptors are below the table size there is always a free slot, so the "too many clients" exit cannot happen. */
  lemma NeverFull(table: seq<int>, listenfd: int, maxi: int, maxfd: int, allset: set<int>, connfd: int)
    requires Consistent(table, listenfd, maxi, maxfd, allset)
    requires connfd >= 0 && connfd !in allset
    requires forall fd :: fd in allset + {connfd} ==> fd < |table|
    ensures FirstFree(table) < |table|
  {
    FirstFreeFree(table);
    if FirstFree(table) == |table| {
      ClientsCount(table);
      assert |allset + {connfd}| == |table| + 2;
      BoundedSet(allset + {connfd}, |table|);
    }
  }
}
