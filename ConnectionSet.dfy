/** The connection set as values: `pollfd` entries, swap-with-last removal,
    and the cursor contract a pass over the set must keep when it removes
    entries while iterating (re-examine the slot just removed). */
module ConnectionSet {

  /** The poll(2) event flags; an `events` or `revents` bit mask is the set
      of flags whose bits are set (POLLIN is bit 0x001, POLLHUP bit 0x010). */
  datatype PollEvent = PollIn | PollPri | PollOut | PollErr | PollHup | PollNval

  /** One `struct pollfd`: the descriptor, the events asked for, and the
      events poll(2) reported. */
  datatype PollFd = PollFd(fd: int, events: set<PollEvent>, revents: set<PollEvent>)

  /** The relay handles a slot when poll reported it readable or hung up:
      `revents & (POLLIN | POLLHUP)` is non-zero. */
  predicate Ready(p: PollFd)
  {
    PollIn in p.revents || PollHup in p.revents
  }

  /** Whether some entry of the set holds descriptor f. */
  predicate HasFd(s: seq<PollFd>, f: int)
  {
    s != [] && (s[0].fd == f || HasFd(s[1..], f))
  }

  /** HasFd holds exactly when some slot holds the descriptor. */
  lemma {:induction false} HasFdAt(s: seq<PollFd>, f: int)
    ensures HasFd(s, f) <==> exists k :: 0 <= k < |s| && s[k].fd == f
  {
    if s != [] {
      HasFdAt(s[1..], f);
      if HasFd(s[1..], f) {
        var k :| 0 <= k < |s| - 1 && s[1..][k].fd == f;
        assert s[k + 1].fd == f;
      }
      if exists k :: 0 <= k < |s| && s[k].fd == f {
        var k :| 0 <= k < |s| && s[k].fd == f;
        if k > 0 {
          assert s[1..][k - 1].fd == f;
        }
      }
    }
  }

  /** The entry a new descriptor gets: read interest, nothing reported yet,
      so a pass does not handle it before the next poll. */
  function NewEntry(fd: int): (p: PollFd)
    ensures p.fd == fd && p.events == {PollIn} && p.revents == {} && !Ready(p)
  {
    PollFd(fd, {PollIn}, {})
  }

  /** Removal by overwriting slot i with the last entry and dropping the
      last slot. */
  function SwapRemove(s: seq<PollFd>, i: nat): (r: seq<PollFd>)
    requires i < |s|
    ensures |r| == |s| - 1
  {
    s[i := s[|s| - 1]][..|s| - 1]
  }

  /** After swap-with-last removal the last entry sits in slot i and every
      other slot below the new length holds what it held. */
  lemma SwapRemoveSlots(s: seq<PollFd>, i: nat)
    requires i < |s|
    ensures i < |s| - 1 ==> SwapRemove(s, i)[i] == s[|s| - 1]
    ensures forall j :: 0 <= j < |s| - 1 && j != i ==> SwapRemove(s, i)[j] == s[j]
  {
  }

  /** Swap-with-last removal takes exactly one copy of the removed entry
      out of the multiset of entries and leaves the rest. */
  lemma SwapRemoveMultiset(s: seq<PollFd>, i: nat)
    requires i < |s|
    ensures multiset(SwapRemove(s, i)) == multiset(s) - multiset{s[i]}
  {
    var last := |s| - 1;
    var t := s[i := s[last]];
    assert t == SwapRemove(s, i) + [s[last]];
    assert multiset(t) == multiset(s) - multiset{s[i]} + multiset{s[last]};
    assert multiset(t) == multiset(SwapRemove(s, i)) + multiset{s[last]};
    forall x ensures multiset(SwapRemove(s, i))[x] == (multiset(s) - multiset{s[i]})[x] {
      assert multiset(t)[x] == multiset(SwapRemove(s, i))[x] + multiset{s[last]}[x];
    }
  }

  /** Appending entries keeps every descriptor of the set. */
  lemma HasFdAppend(s: seq<PollFd>, extra: seq<PollFd>, f: int)
    requires HasFd(s, f)
    ensures HasFd(s + extra, f)
  {
    HasFdAt(s, f);
    var k :| 0 <= k < |s| && s[k].fd == f;
    assert (s + extra)[k].fd == f;
    HasFdAt(s + extra, f);
  }

  /** Swap-with-last removal keeps every descriptor other than the removed
      entry's. */
  lemma HasFdSwapRemove(s: seq<PollFd>, i: nat, f: int)
    requires i < |s| && HasFd(s, f) && s[i].fd != f
    ensures HasFd(SwapRemove(s, i), f)
  {
    var r, last := SwapRemove(s, i), |s| - 1;
    SwapRemoveSlots(s, i);
    HasFdAt(s, f);
    var k :| 0 <= k < |s| && s[k].fd == f;
    if k == last {
      assert r[i].fd == f;
    } else {
      assert r[k].fd == f;
    }
    HasFdAt(r, f);
  }

  /** The entry swapped into slot i stays in the set. */
  lemma HasFdSwapRemoveMoved(s: seq<PollFd>, i: nat)
    requires i < |s| - 1
    ensures HasFd(SwapRemove(s, i), s[|s| - 1].fd)
  {
    assert SwapRemove(s, i)[i].fd == s[|s| - 1].fd;
    HasFdAt(SwapRemove(s, i), s[|s| - 1].fd);
  }

  /** No two entries share a descriptor, except the negative descriptors
      that failed opens leave behind, which poll(2) ignores. */
  predicate Distinct(s: seq<PollFd>)
  {
    forall j, k :: 0 <= j < |s| && 0 <= k < |s| && j != k && s[j].fd >= 0 ==> s[j].fd != s[k].fd
  }

  /** Appending an entry for a descriptor not yet in the set (or a negative
      one) keeps the descriptors distinct. */
  lemma DistinctAppend(s: seq<PollFd>, fd: int)
    requires Distinct(s) && (fd < 0 || !HasFd(s, fd))
    ensures Distinct(s + [NewEntry(fd)])
  {
    HasFdAt(s, fd);
    var t := s + [NewEntry(fd)];
    forall j, k | 0 <= j < |t| && 0 <= k < |t| && j != k && t[j].fd >= 0
      ensures t[j].fd != t[k].fd
    {
      if j == |s| {
        assert t[k] == s[k];
      } else if k == |s| {
        assert t[j] == s[j];
      } else {
        assert t[j] == s[j] && t[k] == s[k];
      }
    }
  }

  /** Swap-with-last removal keeps the descriptors distinct. */
  lemma DistinctSwapRemove(s: seq<PollFd>, i: nat)
    requires Distinct(s) && i < |s|
    ensures Distinct(SwapRemove(s, i))
  {
    var r, last := SwapRemove(s, i), |s| - 1;
    SwapRemoveSlots(s, i);
    forall j, k | 0 <= j < |r| && 0 <= k < |r| && j != k && r[j].fd >= 0
      ensures r[j].fd != r[k].fd
    {
      var j', k' := if j == i then last else j, if k == i then last else k;
      assert r[j] == s[j'] && r[k] == s[k'] && j' != k';
    }
  }

  /** The entries after poll(2) reported the events `revents`, slot by
      slot: descriptors and requested events stay, and a negative
      descriptor is reported nothing. */
  function Polled(s: seq<PollFd>, revents: seq<set<PollEvent>>): (p: seq<PollFd>)
    requires |revents| == |s|
    ensures |p| == |s|
  {
    seq(|s|, k requires 0 <= k < |s| => s[k].(revents := if s[k].fd < 0 then {} else revents[k]))
  }

  /** Polling changes no descriptor: the same descriptors are in the set,
      as distinct as before, and no slot holding a negative descriptor is
      ready. */
  lemma PolledKeepsFds(s: seq<PollFd>, revents: seq<set<PollEvent>>, f: int)
    requires |revents| == |s|
    ensures HasFd(Polled(s, revents), f) <==> HasFd(s, f)
    ensures Distinct(s) ==> Distinct(Polled(s, revents))
    ensures forall k :: 0 <= k < |s| && s[k].fd < 0 ==> !Ready(Polled(s, revents)[k])
  {
    var p := Polled(s, revents);
    assert forall k :: 0 <= k < |s| ==> p[k].fd == s[k].fd;
    HasFdAt(s, f);
    HasFdAt(p, f);
  }

  /** The entries of s, in order, that are ready (flag) or idle (!flag). */
  function Select(s: seq<PollFd>, flag: bool): seq<PollFd>
  {
    if s == [] then []
    else (if Ready(s[0]) == flag then [s[0]] else []) + Select(s[1..], flag)
  }

  /** Filtering distributes over concatenation. */
  lemma {:induction false} SelectConcat(a: seq<PollFd>, b: seq<PollFd>, flag: bool)
    ensures Select(a + b, flag) == Select(a, flag) + Select(b, flag)
    decreases |a|
  {
    if a == [] {
      assert a + b == b;
    } else {
      var ab := a + b;
      var head := if Ready(a[0]) == flag then [a[0]] else [];
      assert ab != [] && ab[0] == a[0] && ab[1..] == a[1..] + b;
      assert Select(ab, flag) == head + Select(a[1..] + b, flag);
      SelectConcat(a[1..], b, flag);
      assert head + (Select(a[1..], flag) + Select(b, flag)) == (head + Select(a[1..], flag)) + Select(b, flag);
    }
  }

  /** The region a cursor at i has still to visit, split at its first entry. */
  lemma SelectAt(s: seq<PollFd>, i: nat, flag: bool)
    requires i < |s|
    ensures Select(s[i..], flag) == (if Ready(s[i]) == flag then [s[i]] else []) + Select(s[i + 1..], flag)
  {
    assert s[i..][1..] == s[i + 1..];
  }

  /** The cursor contract of swap-with-last removal: after removing slot i
      the slots below i are untouched, and the slots from i on hold exactly
      the entries that were after slot i. A cursor that stays at i (the
      caller's `i--` before the loop's `i++`) therefore still visits every
      entry it had not visited. */
  lemma CursorRevisits(s: seq<PollFd>, i: nat)
    requires i < |s|
    ensures SwapRemove(s, i)[..i] == s[..i]
    ensures multiset(SwapRemove(s, i)[i..]) == multiset(s[i + 1..])
  {
    var r, last := SwapRemove(s, i), |s| - 1;
    if i < last {
      assert r[i..] == [s[last]] + s[i + 1..last];
      assert s[i + 1..] == s[i + 1..last] + [s[last]];
    }
  }

  /** Why the cursor must be decremented: a cursor that moved on to i + 1
      after removing slot i would see the entries after slot i less the one
      that moved into slot i, so that entry would be skipped in this pass. */
  lemma CursorAdvanceSkips(s: seq<PollFd>, i: nat)
    requires i + 1 < |s|
    ensures SwapRemove(s, i)[i] == s[|s| - 1]
    ensures multiset(SwapRemove(s, i)[i + 1..]) == multiset(s[i + 1..]) - multiset{s[|s| - 1]}
  {
    var r, last := SwapRemove(s, i), |s| - 1;
    assert r[i + 1..] == s[i + 1..last];
    assert s[i + 1..] == s[i + 1..last] + [s[last]];
  }

  /** Entries none of which is ready contribute nothing to the ready part
      and everything to the other. */
  lemma {:induction false} SelectNone(extra: seq<PollFd>)
    requires forall e :: e in extra ==> !Ready(e)
    ensures Select(extra, true) == [] && Select(extra, false) == extra
  {
    if extra != [] {
      assert extra == [extra[0]] + extra[1..];
      SelectNone(extra[1..]);
    }
  }

  /** How often an entry occurs among the selected ones: as often as in s
      when its readiness is the one selected, otherwise never. */
  lemma {:induction false} SelectCount(s: seq<PollFd>, flag: bool, x: PollFd)
    ensures multiset(Select(s, flag))[x] == if Ready(x) == flag then multiset(s)[x] else 0
  {
    if s != [] {
      assert s == [s[0]] + s[1..];
      SelectCount(s[1..], flag, x);
    }
  }

  /** Selection does not depend on the order of the entries. */
  lemma SelectPermutation(a: seq<PollFd>, b: seq<PollFd>, flag: bool)
    requires multiset(a) == multiset(b)
    ensures multiset(Select(a, flag)) == multiset(Select(b, flag))
  {
    forall x ensures multiset(Select(a, flag))[x] == multiset(Select(b, flag))[x] {
      SelectCount(a, flag, x);
      SelectCount(b, flag, x);
    }
  }

  /** The bookkeeping of one pass with cursor i over the current entries s,
      having handled the entries `handled`: what was handled plus the ready
      entries at or after the cursor are exactly the ready entries the pass
      started with, and no entry that was not ready has been lost. */
  ghost predicate PassInvariant(start: seq<PollFd>, s: seq<PollFd>, i: int, handled: seq<PollFd>)
  {
    && 0 <= i <= |s|
    && multiset(handled) + multiset(Select(s[i..], true)) == multiset(Select(start, true))
    && multiset(Select(start, false)) <= multiset(Select(s, false))
  }

  /** A pass begins with nothing handled and the cursor at slot 0. */
  lemma PassBegins(start: seq<PollFd>)
    ensures PassInvariant(start, start, 0, [])
  {
    assert start[0..] == start;
  }

  /** How many entries a pass has handled and has still to handle add up to
      the number that were ready. */
  lemma PassCount(start: seq<PollFd>, s: seq<PollFd>, i: int, handled: seq<PollFd>)
    requires PassInvariant(start, s, i, handled)
    ensures |handled| + |Select(s[i..], true)| == |Select(start, true)|
  {
    assert |multiset(handled) + multiset(Select(s[i..], true))| == |multiset(Select(start, true))|;
  }

  /** A slot that is not ready is passed over. */
  lemma PassSkip(start: seq<PollFd>, s: seq<PollFd>, i: int, handled: seq<PollFd>)
    requires PassInvariant(start, s, i, handled) && i < |s| && !Ready(s[i])
    ensures PassInvariant(start, s, i + 1, handled)
  {
    SelectAt(s, i, true);
  }

  /** Handling slot i adds it to what was handled and takes it from what is
      pending: the invariant carries over once the new pending region has
      lost exactly s[i] and no idle entry was lost. */
  lemma PassStep(start: seq<PollFd>, s: seq<PollFd>, i: int, handled: seq<PollFd>,
                 t: seq<PollFd>, j: int)
    requires PassInvariant(start, s, i, handled) && i < |s|
    requires 0 <= j <= |t|
    requires multiset(Select(t[j..], true)) + multiset{s[i]} == multiset(Select(s[i..], true))
    requires multiset(Select(s, false)) <= multiset(Select(t, false))
    ensures PassInvariant(start, t, j, handled + [s[i]])
  {
    assert multiset(handled + [s[i]]) == multiset(handled) + multiset{s[i]};
  }

  /** Appending entries loses no idle entry. */
  lemma AppendKeepsIdle(s: seq<PollFd>, extra: seq<PollFd>)
    ensures multiset(Select(s, false)) <= multiset(Select(s + extra, false))
  {
    SelectConcat(s, extra, false);
  }

  /** Moving the cursor past a ready slot i, with entries that are not ready
      appended, leaves the pending ready entries less s[i]. */
  lemma KeepPending(s: seq<PollFd>, i: nat, extra: seq<PollFd>)
    requires i < |s| && Ready(s[i])
    requires forall e :: e in extra ==> !Ready(e)
    ensures multiset(Select((s + extra)[i + 1..], true)) + multiset{s[i]} == multiset(Select(s[i..], true))
  {
    SelectAt(s, i, true);
    assert (s + extra)[i + 1..] == s[i + 1..] + extra;
    SelectConcat(s[i + 1..], extra, true);
    SelectNone(extra);
  }

  /** A ready slot handled in place, perhaps appending entries not yet
      ready (a new connection): the cursor moves on. */
  lemma PassKeep(start: seq<PollFd>, s: seq<PollFd>, i: int, handled: seq<PollFd>,
                 extra: seq<PollFd>)
    requires PassInvariant(start, s, i, handled) && i < |s| && Ready(s[i])
    requires forall e :: e in extra ==> !Ready(e)
    ensures PassInvariant(start, s + extra, i + 1, handled + [s[i]])
  {
    KeepPending(s, i, extra);
    AppendKeepsIdle(s, extra);
    PassStep(start, s, i, handled, s + extra, i + 1);
  }

  /** Removing a ready slot i by swap-with-last and appending entries that
      are not ready leaves, from i on, the pending ready entries less s[i]. */
  lemma RemovePending(s: seq<PollFd>, i: nat, extra: seq<PollFd>)
    requires i < |s| && Ready(s[i])
    requires forall e :: e in extra ==> !Ready(e)
    ensures multiset(Select((SwapRemove(s, i) + extra)[i..], true)) + multiset{s[i]}
            == multiset(Select(s[i..], true))
  {
    var r := SwapRemove(s, i);
    assert (r + extra)[i..] == r[i..] + extra;
    assert Select(r[i..] + extra, true) == Select(r[i..], true) by {
      SelectConcat(r[i..], extra, true);
      SelectNone(extra);
    }
    SelectAt(s, i, true);
    CursorRevisits(s, i);
    SelectPermutation(r[i..], s[i + 1..], true);
  }

  /** Swap-removing a ready entry loses no idle entry. */
  lemma SwapRemoveKeepsIdle(s: seq<PollFd>, i: nat)
    requires i < |s| && Ready(s[i])
    ensures multiset(Select(s, false)) == multiset(Select(SwapRemove(s, i), false))
  {
    var r := SwapRemove(s, i);
    SwapRemoveMultiset(s, i);
    forall x ensures multiset(Select(s, false))[x] == multiset(Select(r, false))[x] {
      SelectCount(s, false, x);
      SelectCount(r, false, x);
    }
  }

  /** Removing a ready entry and appending others loses no idle entry. */
  lemma RemoveKeepsIdle(s: seq<PollFd>, i: nat, extra: seq<PollFd>)
    requires i < |s| && Ready(s[i])
    ensures multiset(Select(s, false)) <= multiset(Select(SwapRemove(s, i) + extra, false))
  {
    SwapRemoveKeepsIdle(s, i);
    AppendKeepsIdle(SwapRemove(s, i), extra);
  }

  /** A ready slot removed by swap-with-last, perhaps followed by appending
      entries not yet ready (a fresh listener): the cursor stays. */
  lemma PassRemove(start: seq<PollFd>, s: seq<PollFd>, i: int, handled: seq<PollFd>,
                   extra: seq<PollFd>)
    requires PassInvariant(start, s, i, handled) && i < |s| && Ready(s[i])
    requires forall e :: e in extra ==> !Ready(e)
    ensures PassInvariant(start, SwapRemove(s, i) + extra, i, handled + [s[i]])
  {
    RemovePending(s, i, extra);
    RemoveKeepsIdle(s, i, extra);
    PassStep(start, s, i, handled, SwapRemove(s, i) + extra, i);
  }

  /** Appending an entry that is not ready and then swap-removing a ready
      slot i leaves, from i on, the pending ready entries less s[i]. */
  lemma ReplacePending(s: seq<PollFd>, i: nat, q: PollFd)
    requires i < |s| && Ready(s[i]) && !Ready(q)
    ensures multiset(Select(SwapRemove(s + [q], i)[i..], true)) + multiset{s[i]} == multiset(Select(s[i..], true))
  {
    var t := s + [q];
    assert t[i] == s[i];
    RemovePending(t, i, []);
    assert SwapRemove(t, i) + [] == SwapRemove(t, i);
    assert t[i..] == s[i..] + [q];
    SelectConcat(s[i..], [q], true);
  }

  /** Appending an entry and then swap-removing a ready slot loses no idle
      entry. */
  lemma ReplaceKeepsIdle(s: seq<PollFd>, i: nat, q: PollFd)
    requires i < |s| && Ready(s[i])
    ensures multiset(Select(s, false)) <= multiset(Select(SwapRemove(s + [q], i), false))
  {
    SelectConcat(s, [q], false);
    SwapRemoveKeepsIdle(s + [q], i);
  }

  /** A ready slot whose entry gives way to a new entry not yet ready (the
      source listener to the source connection): the new entry is appended
      and slot i swap-removed, so it lands in slot i and the cursor stays. */
  lemma PassReplace(start: seq<PollFd>, s: seq<PollFd>, i: int, handled: seq<PollFd>,
                    q: PollFd)
    requires PassInvariant(start, s, i, handled) && i < |s| && Ready(s[i]) && !Ready(q)
    ensures PassInvariant(start, SwapRemove(s + [q], i), i, handled + [s[i]])
  {
    ReplacePending(s, i, q);
    ReplaceKeepsIdle(s, i, q);
    PassStep(start, s, i, handled, SwapRemove(s + [q], i), i);
  }

  /** What handling one ready slot i does to the set: the slot stays and
      entries may be appended (a destination client accepted); the slot is
      swap-removed and entries may be appended (a client that hung up, then
      perhaps a fresh listener); or an entry is appended and the slot is
      swap-removed, so that the new entry takes its place (the source
      listener giving way to the source connection). */
  datatype SlotEffect = Stay(added: seq<PollFd>) | Leave(added: seq<PollFd>) | GiveWay(entry: PollFd)

  /** The entries after handling slot i with effect e. */
  function Apply(s: seq<PollFd>, i: nat, e: SlotEffect): seq<PollFd>
    requires i < |s|
  {
    match e
    case Stay(added) => s + added
    case Leave(added) => SwapRemove(s, i) + added
    case GiveWay(q) => SwapRemove(s + [q], i)
  }

  /** The cursor a handler hands back: i when slot i stayed, i - 1 when it
      was removed, so that the loop's increment examines slot i again. */
  function Cursor(i: int, e: SlotEffect): int
  {
    if e.Stay? then i else i - 1
  }

  /** No entry an effect adds is ready: new descriptors wait for the next
      poll. */
  predicate Quiet(e: SlotEffect)
  {
    match e
    case GiveWay(q) => !Ready(q)
    case _ => forall x :: x in e.added ==> !Ready(x)
  }

  /** Handling a ready slot with any quiet effect and moving the cursor as
      Cursor says keeps the bookkeeping of the pass. */
  lemma PassApply(start: seq<PollFd>, s: seq<PollFd>, i: nat, handled: seq<PollFd>, e: SlotEffect)
    requires PassInvariant(start, s, i, handled) && i < |s| && Ready(s[i]) && Quiet(e)
    ensures PassInvariant(start, Apply(s, i, e), Cursor(i, e) + 1, handled + [s[i]])
  {
    match e
    case Stay(added) => PassKeep(start, s, i, handled, added);
    case Leave(added) => PassRemove(start, s, i, handled, added);
    case GiveWay(q) => PassReplace(start, s, i, handled, q);
  }

  /** Handling a ready slot with a quiet effect and moving the cursor as
      Cursor says leaves pending the ready entries that were pending, less
      the slot handled: a pass always makes progress. */
  lemma ApplyPending(s: seq<PollFd>, i: nat, e: SlotEffect)
    requires i < |s| && Ready(s[i]) && Quiet(e)
    ensures 0 <= Cursor(i, e) + 1 <= |Apply(s, i, e)|
    ensures multiset(Select(Apply(s, i, e)[Cursor(i, e) + 1..], true)) + multiset{s[i]} == multiset(Select(s[i..], true))
    ensures |Select(Apply(s, i, e)[Cursor(i, e) + 1..], true)| < |Select(s[i..], true)|
  {
    match e
    case Stay(added) => KeepPending(s, i, added);
    case Leave(added) => RemovePending(s, i, added);
    case GiveWay(q) => ReplacePending(s, i, q);
    var rest := Select(Apply(s, i, e)[Cursor(i, e) + 1..], true);
    assert |multiset(rest) + multiset{s[i]}| == |multiset(Select(s[i..], true))|;
  }

  /** A finished pass has handled every entry that was ready when it
      started, each exactly once. */
  lemma PassEnds(start: seq<PollFd>, s: seq<PollFd>, handled: seq<PollFd>)
    requires PassInvariant(start, s, |s|, handled)
    ensures multiset(handled) == multiset(Select(start, true))
  {
    assert s[|s|..] == [];
  }
}
