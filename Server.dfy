/** The relay's bookkeeping: the `ConnectionsInfo` record and its `pollfd`
    array as one object, the handlers that update them, and one pass of the
    event loop over the connection set. Every call into the operating system
    (accept, recv, opening a fresh listener) is answered by a parameter. */
module Server {
  import opened Wire
  import opened ChecksumAlgorithm
  import opened Frame
  import opened ConnectionSet

  /** Room for five entries before the first doubling. */
  const INITIAL_FDS_SIZE: nat := 5

  /** What one recv returned: the bytes received (none when the peer hung
      up) or an error. */
  datatype RecvResult = Received(bytes: seq<byte>) | RecvError

  /** The byte count recv returns: -1 on error, 0 on hang-up. */
  function NBytes(r: RecvResult): int
  {
    if r.RecvError? then -1 else |r.bytes|
  }

  /** The operating system's answers. `newFd(n, open)` is what accept, or
      opening a fresh source listener, returns at the n-th slot a pass
      handles, given the entries then in the set; `recv(n, fd)` is what
      recv on fd returns there. */
  datatype Os = Os(newFd: (nat, seq<PollFd>) -> int, recv: (nat, int) -> RecvResult)

  /** A descriptor the system may hand out: -1 for failure, or one that is
      not open in the set. */
  predicate FreshFd(fd: int, open: seq<PollFd>)
  {
    fd == -1 || (fd >= 0 && !HasFd(open, fd))
  }

  /** What the system guarantees: new descriptors are fresh, and recv fills at
      most the relay's MAX_MSG_LENGTH-byte buffer. */
  ghost predicate Sound(os: Os)
  {
    && (forall n: nat, open: seq<PollFd> :: FreshFd(os.newFd(n, open), open))
    && (forall n: nat, fd: int :: os.recv(n, fd).Received? ==> |os.recv(n, fd).bytes| <= MAX_MSG_LENGTH)
  }

  /** The instances of Sound that handling slot i of entries s as the n-th
      handled slot relies on: the descriptor accept returns there, the one
      a fresh listener gets once slot i is gone, and the bytes recv reads
      from slot i. */
  ghost predicate SoundAt(os: Os, n: nat, s: seq<PollFd>, i: nat)
    requires i < |s|
  {
    && FreshFd(os.newFd(n, s), s)
    && FreshFd(os.newFd(n, SwapRemove(s, i)), SwapRemove(s, i))
    && (os.recv(n, s[i].fd).Received? ==> |os.recv(n, s[i].fd).bytes| <= MAX_MSG_LENGTH)
  }

  lemma SoundInstances(os: Os, n: nat, s: seq<PollFd>, i: nat)
    requires Sound(os) && i < |s|
    ensures SoundAt(os, n, s, i)
  {
  }

  /** One send(2) of broadcast_message: the descriptor and the buffer. */
  datatype Send = Send(fd: int, message: seq<byte>)

  /** The sends of a broadcast over entries s, in slot order: one for each
      entry whose descriptor is neither the destination listener nor the
      source connection, each with the whole message. */
  function Deliveries(s: seq<PollFd>, dst: int, src: int, message: seq<byte>): (d: seq<Send>)
    ensures |d| <= |s|
    ensures forall k :: 0 <= k < |d| ==>
              d[k].message == message && d[k].fd != dst && d[k].fd != src && HasFd(s, d[k].fd)
  {
    if s == [] then []
    else
      var init, last := s[..|s| - 1], s[|s| - 1];
      var d := Deliveries(init, dst, src, message);
      assert forall k :: 0 <= k < |d| ==> HasFd(s, d[k].fd) by {
        forall k | 0 <= k < |d| ensures HasFd(s, d[k].fd) {
          assert s == init + [last];
          HasFdAppend(init, [last], d[k].fd);
        }
      }
      assert s[|s| - 1].fd == last.fd;
      HasFdAt(s, last.fd);
      d + (if last.fd != dst && last.fd != src then [Send(last.fd, message)] else [])
  }

  /** Every entry other than the two excluded descriptors gets the message. */
  lemma {:induction false} DeliveriesReachEvery(s: seq<PollFd>, dst: int, src: int, message: seq<byte>, k: nat)
    requires k < |s| && s[k].fd != dst && s[k].fd != src
    ensures Send(s[k].fd, message) in Deliveries(s, dst, src, message)
    decreases |s|
  {
    if k < |s| - 1 {
      DeliveriesReachEvery(s[..|s| - 1], dst, src, message, k);
    }
  }

  /** Broadcasting over two runs of slots sends to the first run, then to
      the second: the sends follow slot order. */
  lemma {:induction false} DeliveriesConcat(a: seq<PollFd>, b: seq<PollFd>, dst: int, src: int, message: seq<byte>)
    ensures Deliveries(a + b, dst, src, message) == Deliveries(a, dst, src, message) + Deliveries(b, dst, src, message)
    decreases |b|
  {
    if b == [] {
      assert a + b == a;
    } else {
      var init := b[..|b| - 1];
      assert (a + b)[..|a + b| - 1] == a + init;
      DeliveriesConcat(a, init, dst, src, message);
    }
  }

  /** Every send goes to a descriptor other than dst and carries a buffer
      the validator accepts. */
  ghost predicate Relayed(sends: seq<Send>, dst: int)
  {
    forall k :: 0 <= k < |sends| ==> sends[k].fd != dst && Acceptable(sends[k].message)
  }

  /** Two runs of such sends, one after the other, are such sends. */
  lemma RelayedConcat(a: seq<Send>, b: seq<Send>, dst: int)
    requires Relayed(a, dst) && Relayed(b, dst)
    ensures Relayed(a + b, dst)
  {
  }

  /** The relay's bookkeeping as a value: the live entries of the set and
      the three descriptors of `ConnectionsInfo`. */
  datatype RelayState = RelayState(entries: seq<PollFd>, srcListener: int, dstListener: int, srcConnection: int)

  /** The bookkeeping the relay keeps: the destination listener is always in
      the set, the source listener and the source connection are in it
      whenever they are open, neither is the destination listener, at most
      one of the two is open, and no descriptor is in the set twice. */
  ghost predicate Tracked(st: RelayState)
  {
    && st.dstListener >= 0 && HasFd(st.entries, st.dstListener)
    && st.srcListener >= -1 && (st.srcListener >= 0 ==> HasFd(st.entries, st.srcListener))
    && st.srcListener != st.dstListener
    && st.srcConnection >= -1 && (st.srcConnection >= 0 ==> HasFd(st.entries, st.srcConnection))
    && st.srcConnection != st.dstListener
    && (st.srcListener == -1 || st.srcConnection == -1)
    && Distinct(st.entries)
  }

  /** Source exclusivity: never are both a source listener and a source
      connection open. */
  lemma SourceExclusive(st: RelayState)
    requires Tracked(st)
    ensures !(st.srcListener >= 0 && st.srcConnection >= 0)
  {
  }

  /** A new destination connection appended to the set. */
  lemma TrackedAppend(st: RelayState, fd: int)
    requires Tracked(st) && FreshFd(fd, st.entries)
    ensures Tracked(st.(entries := st.entries + [NewEntry(fd)]))
  {
    var s := st.entries;
    HasFdAppend(s, [NewEntry(fd)], st.dstListener);
    if st.srcListener >= 0 {
      HasFdAppend(s, [NewEntry(fd)], st.srcListener);
    }
    if st.srcConnection >= 0 {
      HasFdAppend(s, [NewEntry(fd)], st.srcConnection);
    }
    DistinctAppend(s, fd);
  }

  /** A destination client that hung up, removed from slot i. */
  lemma TrackedDstClosed(st: RelayState, i: nat)
    requires Tracked(st) && i < |st.entries|
    requires st.entries[i].fd != st.srcListener && st.entries[i].fd != st.dstListener
    requires st.entries[i].fd != st.srcConnection
    ensures Tracked(st.(entries := SwapRemove(st.entries, i)))
  {
    var s := st.entries;
    HasFdSwapRemove(s, i, st.dstListener);
    if st.srcListener >= 0 {
      HasFdSwapRemove(s, i, st.srcListener);
    }
    if st.srcConnection >= 0 {
      HasFdSwapRemove(s, i, st.srcConnection);
    }
    DistinctSwapRemove(s, i);
  }

  /** A source client accepted on the listener in slot i: the connection is
      appended, the listener removed, and the connection replaces the
      listener in the bookkeeping. */
  lemma TrackedSrcAccepted(st: RelayState, i: nat, newfd: int)
    requires Tracked(st) && i < |st.entries| && st.entries[i].fd == st.srcListener
    requires newfd >= 0 && FreshFd(newfd, st.entries)
    ensures Tracked(RelayState(SwapRemove(st.entries + [NewEntry(newfd)], i), -1, st.dstListener, newfd))
  {
    var s := st.entries;
    var t := s + [NewEntry(newfd)];
    HasFdAppend(s, [NewEntry(newfd)], st.dstListener);
    assert t[i] == s[i];
    HasFdSwapRemove(t, i, st.dstListener);
    HasFdSwapRemoveMoved(t, i);
    DistinctAppend(s, newfd);
    DistinctSwapRemove(t, i);
  }

  /** The source client gone from slot i, and a fresh source listener (or
      the -1 of a failure to open one) appended in its place. */
  lemma TrackedSrcClosed(st: RelayState, i: nat, relisten: int)
    requires Tracked(st) && i < |st.entries| && st.entries[i].fd != st.dstListener
    requires FreshFd(relisten, SwapRemove(st.entries, i))
    ensures Tracked(RelayState(SwapRemove(st.entries, i) + [NewEntry(relisten)], relisten, st.dstListener, -1))
  {
    var r := SwapRemove(st.entries, i);
    var t := r + [NewEntry(relisten)];
    HasFdSwapRemove(st.entries, i, st.dstListener);
    HasFdAppend(r, [NewEntry(relisten)], st.dstListener);
    if relisten >= 0 {
      assert t[|r|].fd == relisten;
      HasFdAt(t, relisten);
    }
    DistinctSwapRemove(st.entries, i);
    DistinctAppend(r, relisten);
  }

  /** What handling one ready slot does: how the set changes, the new
      source listener and source connection, and the sends. */
  datatype Outcome = Outcome(effect: SlotEffect, srcListener: int, srcConnection: int, sends: seq<Send>)

  /** Handling ready slot i of state st as the n-th handled slot of a pass,
      chosen by the slot's descriptor in the order the relay tests them:
      the source listener accepts the source client, which then takes the
      listener's slot; the destination listener accepts a destination
      client; the source connection's data is validated and broadcast, or
      its hang-up closes it and a fresh source listener is opened; a
      destination client's data is ignored, or its hang-up closes it. */
  function Handle(st: RelayState, i: nat, os: Os, n: nat): (o: Outcome)
    requires i < |st.entries|
    ensures Quiet(o.effect) && Relayed(o.sends, st.dstListener)
    ensures o.sends != [] ==> st.entries[i].fd == st.srcConnection
  {
    var s := st.entries;
    var fd := s[i].fd;
    if fd == st.srcListener then
      var newfd := os.newFd(n, s);
      if newfd == -1 then Outcome(Stay([]), st.srcListener, st.srcConnection, [])
      else Outcome(GiveWay(NewEntry(newfd)), -1, newfd, [])
    else if fd == st.dstListener then
      var newfd := os.newFd(n, s);
      Outcome(Stay(if newfd == -1 then [] else [NewEntry(newfd)]), st.srcListener, st.srcConnection, [])
    else if fd == st.srcConnection then
      var r := os.recv(n, st.srcConnection);
      if NBytes(r) <= 0 then
        var relisten := os.newFd(n, SwapRemove(s, i));
        Outcome(Leave([NewEntry(relisten)]), relisten, -1, [])
      else
        var sends := if Validate(r.bytes).Broadcast? then Deliveries(s, st.dstListener, st.srcConnection, r.bytes) else [];
        Outcome(Stay([]), st.srcListener, st.srcConnection, sends)
    else
      var effect := if NBytes(os.recv(n, fd)) <= 0 then Leave([]) else Stay([]);
      Outcome(effect, st.srcListener, st.srcConnection, [])
  }

  /** The state after handling slot i with outcome o. */
  function Next(st: RelayState, i: nat, o: Outcome): RelayState
    requires i < |st.entries|
  {
    RelayState(Apply(st.entries, i, o.effect), o.srcListener, st.dstListener, o.srcConnection)
  }

  /** Handling a ready slot keeps the bookkeeping, given the answers the
      system guarantees there. */
  lemma HandleKeepsTracked(st: RelayState, i: nat, os: Os, n: nat)
    requires Tracked(st) && i < |st.entries| && SoundAt(os, n, st.entries, i)
    ensures Tracked(Next(st, i, Handle(st, i, os, n)))
  {
    var s := st.entries;
    var fd := s[i].fd;
    var newfd := os.newFd(n, s);
    if fd == st.srcListener {
      if newfd == -1 {
        assert s + [] == s;
      } else {
        TrackedSrcAccepted(st, i, newfd);
      }
    } else if fd == st.dstListener {
      if newfd == -1 {
        assert s + [] == s;
      } else {
        TrackedAppend(st, newfd);
      }
    } else if fd == st.srcConnection {
      if NBytes(os.recv(n, st.srcConnection)) <= 0 {
        TrackedSrcClosed(st, i, os.newFd(n, SwapRemove(s, i)));
      } else {
        assert s + [] == s;
      }
    } else {
      if NBytes(os.recv(n, fd)) <= 0 {
        TrackedDstClosed(st, i);
        assert SwapRemove(s, i) + [] == SwapRemove(s, i);
      } else {
        assert s + [] == s;
      }
    }
  }

  /** Where a pass ends: the final state, every send in order, and the
      entries handled in the order they were handled. */
  datatype PassResult = PassResult(state: RelayState, sent: seq<Send>, handled: seq<PollFd>)

  /** The rest of a pass with the cursor at slot i, having sent `sent` and
      handled `handled` so far: a slot that is not ready is passed over, a
      ready one is handled, and the cursor moves to the slot after the one
      Cursor hands back, so that a removed slot is examined again. The
      number of slots handled so far indexes the system's answers. */
  function PassFrom(st: RelayState, os: Os, i: nat, sent: seq<Send>, handled: seq<PollFd>): PassResult
    requires i <= |st.entries|
    decreases |Select(st.entries[i..], true)|, |st.entries| - i
  {
    if i == |st.entries| then PassResult(st, sent, handled)
    else if !Ready(st.entries[i]) then
      SelectAt(st.entries, i, true);
      PassFrom(st, os, i + 1, sent, handled)
    else
      var o := Handle(st, i, os, |handled|);
      ApplyPending(st.entries, i, o.effect);
      PassFrom(Next(st, i, o), os, Cursor(i, o.effect) + 1, sent + o.sends, handled + [st.entries[i]])
  }

  /** A pass over start that ended in r handled each entry ready in start
      once and kept every idle entry of start in the set. */
  ghost predicate Covered(start: seq<PollFd>, r: PassResult)
  {
    && multiset(r.handled) == multiset(Select(start, true))
    && multiset(Select(start, false)) <= multiset(Select(r.state.entries, false))
  }

  /** The pass at a ready slot goes on after the slot's handler, at the
      slot after the one Cursor hands back. */
  lemma PassFromReady(st: RelayState, os: Os, i: nat, sent: seq<Send>, handled: seq<PollFd>)
    requires i < |st.entries| && Ready(st.entries[i])
    ensures var o := Handle(st, i, os, |handled|);
              && Cursor(i, o.effect) + 1 <= |Next(st, i, o).entries|
              && PassFrom(st, os, i, sent, handled)
                 == PassFrom(Next(st, i, o), os, Cursor(i, o.effect) + 1, sent + o.sends, handled + [st.entries[i]])
  {
    ApplyPending(st.entries, i, Handle(st, i, os, |handled|).effect);
  }

  /** The rest of a pass, from any point that keeps the pass's bookkeeping,
      handles each pending ready entry once and loses no idle entry. */
  lemma {:induction false} PassFromCovers(start: seq<PollFd>, st: RelayState, os: Os, i: nat,
                                          sent: seq<Send>, handled: seq<PollFd>)
    requires i <= |st.entries| && PassInvariant(start, st.entries, i, handled)
    ensures Covered(start, PassFrom(st, os, i, sent, handled))
    decreases |Select(st.entries[i..], true)|, |st.entries| - i, 1
  {
    var s := st.entries;
    if i == |s| {
      PassEnds(start, s, handled);
    } else if !Ready(s[i]) {
      PassSkip(start, s, i, handled);
      SelectAt(s, i, true);
      PassFromCovers(start, st, os, i + 1, sent, handled);
    } else {
      PassCoversReady(start, st, os, i, sent, handled);
    }
  }

  /** The case of PassFromCovers where the slot at the cursor is ready. */
  lemma {:induction false} PassCoversReady(start: seq<PollFd>, st: RelayState, os: Os, i: nat,
                                           sent: seq<Send>, handled: seq<PollFd>)
    requires i < |st.entries| && Ready(st.entries[i]) && PassInvariant(start, st.entries, i, handled)
    ensures Covered(start, PassFrom(st, os, i, sent, handled))
    decreases |Select(st.entries[i..], true)|, |st.entries| - i, 0
  {
    var o := Handle(st, i, os, |handled|);
    ApplyPending(st.entries, i, o.effect);
    PassApply(start, st.entries, i, handled, o.effect);
    PassFromCovers(start, Next(st, i, o), os, Cursor(i, o.effect) + 1, sent + o.sends, handled + [st.entries[i]]);
    PassFromReady(st, os, i, sent, handled);
  }

  /** The rest of a pass, from a state that keeps the relay's bookkeeping,
      keeps it, with the same destination listener, and sends only
      accepted buffers away from the destination listener. */
  lemma {:induction false} PassFromKeeps(st: RelayState, os: Os, i: nat, sent: seq<Send>, handled: seq<PollFd>)
    requires i <= |st.entries| && Tracked(st) && Sound(os) && Relayed(sent, st.dstListener)
    ensures Tracked(PassFrom(st, os, i, sent, handled).state)
    ensures PassFrom(st, os, i, sent, handled).state.dstListener == st.dstListener
    ensures Relayed(PassFrom(st, os, i, sent, handled).sent, st.dstListener)
    decreases |Select(st.entries[i..], true)|, |st.entries| - i
  {
    var s := st.entries;
    if i == |s| {
    } else if !Ready(s[i]) {
      SelectAt(s, i, true);
      PassFromKeeps(st, os, i + 1, sent, handled);
    } else {
      var o := Handle(st, i, os, |handled|);
      ApplyPending(s, i, o.effect);
      SoundInstances(os, |handled|, s, i);
      HandleKeepsTracked(st, i, os, |handled|);
      RelayedConcat(sent, o.sends, st.dstListener);
      PassFromKeeps(Next(st, i, o), os, Cursor(i, o.effect) + 1, sent + o.sends, handled + [s[i]]);
    }
  }

  /** One whole pass over a state that keeps the bookkeeping: every entry
      ready at the start is handled exactly once, no idle entry is lost,
      the bookkeeping (source exclusivity included) is kept, and every send
      carries an accepted buffer to a descriptor other than the destination
      listener. */
  lemma PassSound(st: RelayState, os: Os)
    requires Tracked(st) && Sound(os)
    ensures var r := PassFrom(st, os, 0, [], []);
              && multiset(r.handled) == multiset(Select(st.entries, true))
              && multiset(Select(st.entries, false)) <= multiset(Select(r.state.entries, false))
              && Tracked(r.state) && r.state.dstListener == st.dstListener
              && Relayed(r.sent, st.dstListener)
  {
    PassBegins(st.entries);
    PassFromCovers(st.entries, st, os, 0, [], []);
    PassFromKeeps(st, os, 0, [], []);
  }

  /** poll(2) changes only what is reported, so it keeps the bookkeeping. */
  lemma TrackedPolled(st: RelayState, revents: seq<set<PollEvent>>)
    requires Tracked(st) && |revents| == |st.entries|
    ensures Tracked(st.(entries := Polled(st.entries, revents)))
  {
    PolledKeepsFds(st.entries, revents, st.dstListener);
    PolledKeepsFds(st.entries, revents, st.srcListener);
    PolledKeepsFds(st.entries, revents, st.srcConnection);
  }

  /** The relay: the fields of `ConnectionsInfo` and the `pollfd` array. */
  class Relay {
    var srcListener: int
    var dstListener: int
    var srcConnection: int
    var fdsSize: nat
    var fdCount: nat
    var fds: array<PollFd>
    /** The live entries of the set, in slot order. */
    ghost var Contents: seq<PollFd>

    /** The array holds fdsSize entries, the first fdCount of them live. */
    ghost predicate Shape()
      reads this, fds
    {
      fds.Length == fdsSize && 0 < fdsSize && fdCount <= fdsSize && Contents == fds[..fdCount]
    }

    /** The object's bookkeeping as a value. */
    ghost function State(): RelayState
      reads this
    {
      RelayState(Contents, srcListener, dstListener, srcConnection)
    }

    ghost predicate Valid()
      reads this, fds
    {
      Shape() && Tracked(State())
    }

    /** Start-up: both listeners in the set, no source client yet. */
    constructor (srcL: int, dstL: int)
      requires srcL >= 0 && dstL >= 0 && srcL != dstL
      ensures Valid() && fresh(fds)
      ensures srcListener == srcL && dstListener == dstL && srcConnection == -1
      ensures fdsSize == INITIAL_FDS_SIZE && Contents == [NewEntry(srcL), NewEntry(dstL)]
    {
      var a := new PollFd[INITIAL_FDS_SIZE];
      a[0] := NewEntry(srcL);
      a[1] := NewEntry(dstL);
      srcListener, dstListener, srcConnection := srcL, dstL, -1;
      fdsSize, fdCount := INITIAL_FDS_SIZE, 2;
      fds := a;
      Contents := [NewEntry(srcL), NewEntry(dstL)];
      new;
      assert Contents[0].fd == srcL && Contents[1].fd == dstL;
      HasFdAt(Contents, srcL);
      HasFdAt(Contents, dstL);
    }

    /** Appends an entry for newfd, doubling the array first when it is
        full; the earlier entries are kept. */
    method AddToFds(newfd: int)
      requires Shape()
      modifies this`fds, this`fdsSize, this`fdCount, this`Contents, fds
      ensures Shape() && (fds == old(fds) || fresh(fds))
      ensures Contents == old(Contents) + [NewEntry(newfd)]
      ensures fdsSize == if old(fdCount) == old(fdsSize) then 2 * old(fdsSize) else old(fdsSize)
      ensures old(fdCount) < old(fdsSize) ==> fds == old(fds)
    {
      if fdCount == fdsSize {
        fdsSize := 2 * fdsSize;
        var grown := new PollFd[fdsSize];
        var k := 0;
        while k < fdCount
          invariant 0 <= k <= fdCount && grown[..k] == fds[..k]
          modifies grown
        {
          grown[k] := fds[k];
          k := k + 1;
        }
        fds := grown;
      }
      fds[fdCount] := NewEntry(newfd);
      fdCount := fdCount + 1;
      Contents := Contents + [NewEntry(newfd)];
    }

    /** Removes slot i by moving the last live entry into it. */
    method DelFromFds(i: nat)
      requires Shape() && i < fdCount
      modifies this`fdCount, this`Contents, fds
      ensures Shape() && Contents == SwapRemove(old(Contents), i)
    {
      fds[i] := fds[fdCount - 1];
      fdCount := fdCount - 1;
      Contents := SwapRemove(Contents, i);
    }

    /** Accepts a client on the source (isSrc) or the destination listener.
        On success the new descriptor is appended and, for the source, it
        becomes the source connection; the result is 0. On failure nothing
        changes and the result is -1. */
    method HandleNewConnection(isSrc: bool, os: Os, n: nat) returns (rc: int)
      requires Shape()
      modifies this`fds, this`fdsSize, this`fdCount, this`Contents, this`srcConnection, fds
      ensures Shape() && (fds == old(fds) || fresh(fds))
      ensures rc == -1 || rc == 0
      ensures rc == -1 <==> os.newFd(n, old(Contents)) == -1
      ensures rc == -1 ==> Contents == old(Contents) && srcConnection == old(srcConnection)
      ensures rc == -1 ==> fds == old(fds) && fdsSize == old(fdsSize)
      ensures rc == 0 ==> Contents == old(Contents) + [NewEntry(os.newFd(n, old(Contents)))]
      ensures rc == 0 ==> srcConnection == if isSrc then os.newFd(n, old(Contents)) else old(srcConnection)
      ensures rc == 0 ==> fdsSize == if old(fdCount) == old(fdsSize) then 2 * old(fdsSize) else old(fdsSize)
    {
      var newfd := os.newFd(n, fds[..fdCount]);
      if newfd == -1 {
        rc := -1;
      } else {
        AddToFds(newfd);
        if isSrc {
          srcConnection := newfd;
        }
        rc := 0;
      }
    }

    /** Removes the connection in slot i and steps the cursor back, so that
        the entry moved into slot i is examined next. */
    method CloseConnection(i: nat) returns (next: int)
      requires Shape() && i < fdCount
      modifies this`fdCount, this`Contents, fds
      ensures Shape() && Contents == SwapRemove(old(Contents), i) && next == i - 1
    {
      DelFromFds(i);
      next := i - 1;
    }

    /** Data from a destination client is read and ignored; a hang-up or an
        error closes the connection. */
    method HandleDstClientData(i: nat, os: Os, n: nat) returns (next: int)
      requires Shape() && i < fdCount
      modifies this`fdCount, this`Contents, fds
      ensures Shape()
      ensures next == i - 1 || next == i
      ensures next == i - 1 <==> NBytes(os.recv(n, old(fds[i].fd))) <= 0
      ensures next == i - 1 ==> Contents == SwapRemove(old(Contents), i)
      ensures next == i ==> Contents == old(Contents)
    {
      var nbytes := NBytes(os.recv(n, fds[i].fd));
      next := i;
      if nbytes <= 0 {
        next := CloseConnection(i);
      }
    }

    /** Data from the source client. A hang-up or an error closes the
        connection in slot i and appends a fresh source listener; otherwise
        the buffer is validated and, when accepted, broadcast exactly as
        received. The validation is Validate's decision. The fresh listener
        always fits: the closed connection has just freed a slot, so the
        array is never regrown here. */
    method HandleSrcClientData(i: nat, os: Os, n: nat) returns (next: int, sends: seq<Send>)
      requires Shape() && i < fdCount
      requires os.recv(n, srcConnection).Received? ==> |os.recv(n, srcConnection).bytes| <= MAX_MSG_LENGTH
      modifies this`fds, this`fdsSize, this`fdCount, this`Contents, this`srcListener, this`srcConnection, fds
      ensures Shape() && fds == old(fds) && fdsSize == old(fdsSize)
      ensures next == i - 1 || next == i
      ensures next == i - 1 <==> NBytes(os.recv(n, old(srcConnection))) <= 0
      ensures next == i - 1 ==>
                && Contents == SwapRemove(old(Contents), i) + [NewEntry(srcListener)]
                && srcListener == os.newFd(n, SwapRemove(old(Contents), i))
                && srcConnection == -1 && sends == []
      ensures next == i ==>
                && Contents == old(Contents)
                && srcListener == old(srcListener) && srcConnection == old(srcConnection)
                && sends == (if Validate(os.recv(n, old(srcConnection)).bytes).Broadcast?
                             then Deliveries(Contents, dstListener, srcConnection, os.recv(n, old(srcConnection)).bytes)
                             else [])
    {
      var r := os.recv(n, srcConnection);
      var nbytes := NBytes(r);
      next, sends := i, [];
      if nbytes <= 0 {
        next := CloseConnection(i);
        srcListener := os.newFd(n, fds[..fdCount]);
        AddToFds(srcListener);
        srcConnection := -1;
      } else if nbytes < HEADER_LENGTH {
        // Header too short: dropped, the connection stays open.
      } else {
        var buf := r.bytes;
        var lengthField := ConcatTwoBytes(buf[2], buf[3]);
        var checksum := ConcatTwoBytes(buf[4], buf[5]);
        var actualLength := nbytes - HEADER_LENGTH;
        var lengthOk := actualLength <= lengthField;
        if lengthOk && CheckHeader(buf) == HeaderOk {
          var checksumOk := false;
          if buf[1] == OPTIONS_CHECKSUM {
            var computed := CalculateChecksum(buf);
            checksumOk := computed == checksum;
          }
          if checksumOk || buf[1] == OPTIONS_NONE {
            sends := BroadcastMessage(buf);
          }
        }
      }
    }

    /** The recipients of a broadcast: every live entry other than the
        destination listener and the source connection, in slot order,
        each sent the same buffer. A failed send changes nothing. */
    method BroadcastMessage(message: seq<byte>) returns (sends: seq<Send>)
      requires Shape()
      ensures sends == Deliveries(Contents, dstListener, srcConnection, message)
    {
      sends := [];
      var j := 0;
      while j < fdCount
        invariant 0 <= j <= fdCount
        invariant sends == Deliveries(fds[..j], dstListener, srcConnection, message)
      {
        var destFd := fds[j].fd;
        assert fds[..j + 1][..j] == fds[..j];
        if destFd != dstListener && destFd != srcConnection {
          sends := sends + [Send(destFd, message)];
        }
        j := j + 1;
      }
    }

    /** A ready source listener: accept the source client; on success close
        and remove the listener, which the new connection replaces in slot
        i, forget the listener, and step the cursor back. */
    method AcceptSource(i: nat, os: Os, n: nat) returns (next: int)
      requires Shape() && i < fdCount && fds[i].fd == srcListener
      modifies this, fds
      ensures Shape() && dstListener == old(dstListener) && (fds == old(fds) || fresh(fds))
      ensures State() == Next(old(State()), i, Handle(old(State()), i, os, n))
      ensures next == Cursor(i, Handle(old(State()), i, os, n).effect)
    {
      ghost var s := Contents;
      next := i;
      var rc := HandleNewConnection(true, os, n);
      if rc == 0 {
        DelFromFds(i);
        srcListener := -1;
        next := i - 1;
      } else {
        assert s + [] == s;
      }
    }

    /** A ready destination listener: accept a destination client, appended
        to the set; the cursor moves on. */
    method AcceptDestination(i: nat, os: Os, n: nat) returns (next: int)
      requires Shape() && i < fdCount && fds[i].fd == dstListener && fds[i].fd != srcListener
      modifies this, fds
      ensures Shape() && dstListener == old(dstListener) && (fds == old(fds) || fresh(fds))
      ensures State() == Next(old(State()), i, Handle(old(State()), i, os, n))
      ensures next == Cursor(i, Handle(old(State()), i, os, n).effect)
    {
      ghost var s := Contents;
      next := i;
      var rc := HandleNewConnection(false, os, n);
      if rc == -1 {
        assert s + [] == s;
      }
    }

    /** A ready source connection: read and relay, or close and listen
        again. */
    method SourceData(i: nat, os: Os, n: nat) returns (next: int, sends: seq<Send>)
      requires Shape() && i < fdCount
      requires fds[i].fd == srcConnection && fds[i].fd != srcListener && fds[i].fd != dstListener
      requires os.recv(n, srcConnection).Received? ==> |os.recv(n, srcConnection).bytes| <= MAX_MSG_LENGTH
      modifies this, fds
      ensures Shape() && dstListener == old(dstListener) && fds == old(fds)
      ensures State() == Next(old(State()), i, Handle(old(State()), i, os, n))
      ensures next == Cursor(i, Handle(old(State()), i, os, n).effect)
      ensures sends == Handle(old(State()), i, os, n).sends
    {
      ghost var s := Contents;
      next, sends := HandleSrcClientData(i, os, n);
      if next == i {
        assert s + [] == s;
      }
    }

    /** A ready destination client: read and ignore, or close. */
    method DestinationData(i: nat, os: Os, n: nat) returns (next: int)
      requires Shape() && i < fdCount
      requires fds[i].fd != srcListener && fds[i].fd != dstListener && fds[i].fd != srcConnection
      modifies this, fds
      ensures Shape() && dstListener == old(dstListener) && fds == old(fds)
      ensures State() == Next(old(State()), i, Handle(old(State()), i, os, n))
      ensures next == Cursor(i, Handle(old(State()), i, os, n).effect)
    {
      ghost var s := Contents;
      next := HandleDstClientData(i, os, n);
      if next == i - 1 {
        assert SwapRemove(s, i) + [] == SwapRemove(s, i);
      } else {
        assert s + [] == s;
      }
    }

    /** The body of a pass for a ready slot i, chosen by the descriptor in
        the slot: the state becomes what Handle says, the cursor comes back
        as Cursor says, and the sends are Handle's. With the answers the
        system guarantees there, the bookkeeping is kept. */
    method HandleReady(i: nat, os: Os, n: nat) returns (next: int, sends: seq<Send>)
      requires Shape() && i < fdCount && SoundAt(os, n, Contents, i)
      modifies this, fds
      ensures Shape() && dstListener == old(dstListener) && (fds == old(fds) || fresh(fds))
      ensures State() == Next(old(State()), i, Handle(old(State()), i, os, n))
      ensures next == Cursor(i, Handle(old(State()), i, os, n).effect)
      ensures sends == Handle(old(State()), i, os, n).sends
      ensures old(Tracked(State())) ==> Tracked(State())
    {
      ghost var st := State();
      if old(Tracked(State())) {
        HandleKeepsTracked(st, i, os, n);
      }
      sends := [];
      if fds[i].fd == srcListener {
        next := AcceptSource(i, os, n);
      } else if fds[i].fd == dstListener {
        next := AcceptDestination(i, os, n);
      } else if fds[i].fd == srcConnection {
        next, sends := SourceData(i, os, n);
      } else {
        next := DestinationData(i, os, n);
      }
    }

    /** One iteration of the pass at cursor i: a ready slot is handled as
        Handle says, counted as handled, and its sends added to those of
        the pass; a slot that is not ready is passed over with nothing
        changed. Either way the rest of the pass is the same, and the pass
        has made progress. */
    method Visit(i: nat, os: Os, n: nat, sent: seq<Send>, ghost handled: seq<PollFd>)
      returns (i': nat, n': nat, sent': seq<Send>, ghost handled': seq<PollFd>)
      requires Shape() && i < fdCount && Sound(os) && n == |handled|
      modifies this, fds
      ensures Shape() && dstListener == old(dstListener) && (fds == old(fds) || fresh(fds))
      ensures i' <= fdCount && n' == |handled'|
      ensures !Ready(old(Contents)[i]) ==>
                State() == old(State()) && i' == i + 1 && sent' == sent && handled' == handled
      ensures Ready(old(Contents)[i]) ==>
                var o := Handle(old(State()), i, os, n);
                && State() == Next(old(State()), i, o) && i' == Cursor(i, o.effect) + 1
                && sent' == sent + o.sends && handled' == handled + [old(Contents)[i]]
      ensures PassFrom(State(), os, i', sent', handled') == PassFrom(old(State()), os, i, sent, handled)
      ensures || |Select(Contents[i'..], true)| < |Select(old(Contents)[i..], true)|
              || (|Select(Contents[i'..], true)| == |Select(old(Contents)[i..], true)| && fdCount - i' < old(fdCount) - i)
    {
      ghost var st := State();
      if Ready(fds[i]) {
        ghost var o := Handle(st, i, os, n);
        PassFromReady(st, os, i, sent, handled);
        ApplyPending(st.entries, i, o.effect);
        SoundInstances(os, n, st.entries, i);
        var next, sends := HandleReady(i, os, n);
        i', n', sent', handled' := next + 1, n + 1, sent + sends, handled + [st.entries[i]];
      } else {
        SelectAt(st.entries, i, true);
        i', n', sent', handled' := i + 1, n, sent, handled;
      }
    }

    /** One pass over the set after poll: the pass PassFrom describes, from
        the state the object holds. So every entry that was ready when the
        pass began is handled exactly once, whatever the handlers remove or
        append; no entry that was not ready is lost; the bookkeeping,
        source exclusivity included, is kept; and every message sent is one
        the validator accepts, sent to a descriptor other than the
        destination listener. */
    method ProcessConnections(os: Os) returns (ghost handled: seq<PollFd>, sent: seq<Send>)
      requires Valid() && Sound(os)
      modifies this, fds
      ensures Valid() && dstListener == old(dstListener) && (fds == old(fds) || fresh(fds))
      ensures PassFrom(old(State()), os, 0, [], []) == PassResult(State(), sent, handled)
      ensures multiset(handled) == multiset(Select(old(Contents), true))
      ensures multiset(Select(old(Contents), false)) <= multiset(Select(Contents, false))
      ensures Relayed(sent, dstListener)
    {
      ghost var start := State();
      PassSound(start, os);
      handled, sent := [], [];
      var n: nat := 0;
      var i: nat := 0;
      while i < fdCount
        invariant Shape() && dstListener == old(dstListener)
        invariant fds == old(fds) || fresh(fds)
        invariant i <= fdCount && n == |handled|
        invariant PassFrom(State(), os, i, sent, handled) == PassFrom(start, os, 0, [], [])
        decreases |Select(Contents[i..], true)|, fdCount - i
      {
        i, n, sent, handled := Visit(i, os, n, sent, handled);
      }
    }

    /** poll(2) reporting events: every live slot's reported events become
        the given ones (none for a negative descriptor); nothing else
        changes. */
    method Poll(revents: seq<set<PollEvent>>)
      requires Shape() && |revents| == fdCount
      modifies this`Contents, fds
      ensures Shape() && Contents == Polled(old(Contents), revents)
      ensures old(Tracked(State())) ==> Tracked(State())
    {
      ghost var s := Contents;
      var k := 0;
      while k < fdCount
        invariant 0 <= k <= fdCount && fds.Length == fdsSize
        invariant fds[..k] == Polled(s, revents)[..k] && fds[k..fdCount] == s[k..]
      {
        var p := fds[k];
        fds[k] := p.(revents := if p.fd < 0 then {} else revents[k]);
        k := k + 1;
      }
      Contents := fds[..fdCount];
      if old(Tracked(State())) {
        TrackedPolled(old(State()), revents);
      }
    }

    /** One turn of the main loop: poll reports the events, then one pass
        handles them. */
    method Serve(revents: seq<set<PollEvent>>, os: Os) returns (ghost handled: seq<PollFd>, sent: seq<Send>)
      requires Valid() && Sound(os) && |revents| == fdCount
      modifies this, fds
      ensures Valid() && dstListener == old(dstListener) && (fds == old(fds) || fresh(fds))
      ensures var polled := old(State()).(entries := Polled(old(Contents), revents));
                PassFrom(polled, os, 0, [], []) == PassResult(State(), sent, handled)
      ensures multiset(handled) == multiset(Select(Polled(old(Contents), revents), true))
      ensures Relayed(sent, dstListener)
    {
      Poll(revents);
      handled, sent := ProcessConnections(os);
    }
  }
}
