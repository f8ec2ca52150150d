/** The two pollers as implementations of one map from file descriptors to event masks. */
module PollerModel {

  /** An event mask.  A channel only ever sets or clears these groups of bits: POLLIN with POLLPRI,
      POLLOUT, and EPOLLET. */
  datatype Mask = Mask(read: bool, write: bool, edge: bool)

  const NONE_EVENT := Mask(false, false, false)

  /** The operations of `Channel` on its event mask; each is followed by an update of the poller. */
  datatype MaskOp = EnableReading | EnableWriting | DisableWriting | EnableET | DisableET | DisableAll

  function Change(ev: Mask, op: MaskOp): Mask {
    match op
    case EnableReading => ev.(read := true)
    case EnableWriting => ev.(write := true)
    case DisableWriting => ev.(write := false)
    case EnableET => ev.(edge := true)
    case DisableET => ev.(edge := false)
    case DisableAll => NONE_EVENT
  }

  /** `static_cast<short>`: what a `pollfd` keeps of a mask; EPOLLET is bit 31 and falls off. */
  function Short(ev: Mask): Mask { ev.(edge := false) }

  // The same on the bits of `events_`.

  const POLLIN: bv32 := 0x1
  const POLLPRI: bv32 := 0x2
  const POLLOUT: bv32 := 0x4
  const EPOLLET: bv32 := 0x8000_0000

  function Bits(ev: Mask): bv32 {
    (if ev.read then POLLIN | POLLPRI else 0) | (if ev.write then POLLOUT else 0) | (if ev.edge then EPOLLET else 0)
  }

  /** The bit operations of `Channel`. */
  function ChangeBits(events: bv32, op: MaskOp): bv32 {
    match op
    case EnableReading => events | (POLLIN | POLLPRI)
    case EnableWriting => events | POLLOUT
    case DisableWriting => events & !POLLOUT
    case EnableET => events | EPOLLET
    case DisableET => events & !EPOLLET
    case DisableAll => 0
  }

  /** The three flags stand for the bits: every operation, the tests `isNoneEvent` and `isWriting`,
      and the cut to 16 bits do to the flags what they do to the bits. */
  lemma FlagsAreBits(ev: Mask, op: MaskOp)
    ensures Bits(Change(ev, op)) == ChangeBits(Bits(ev), op)
    ensures Bits(ev) == 0 <==> ev == NONE_EVENT
    ensures Bits(ev) & POLLOUT != 0 <==> ev.write
    ensures Bits(Short(ev)) == Bits(ev) & 0xFFFF
    ensures Bits(Mask(true, false, false)) == 3 && Bits(Mask(false, true, false)) == 4
    ensures Bits(Mask(false, false, true)) == 0x8000_0000
  {
  }

  /** No two masks have the same bits. */
  lemma BitsTellMasks(a: Mask, b: Mask)
    ensures Bits(a) == Bits(b) ==> a == b
  {
  }

  // ----- The specification: a map --------------------------------------------------------------

  /** The interest that channels have last registered, also the empty one. */
  type Interest = map<int, Mask>

  datatype Op = Update(fd: int, op: MaskOp) | Remove(fd: int)

  function MaskOf(m: Interest, fd: int): Mask { if fd in m then m[fd] else NONE_EVENT }

  function Apply(m: Interest, op: Op): Interest {
    match op
    case Update(fd, o) => m[fd := Change(MaskOf(m, fd), o)]
    case Remove(fd) => m - {fd}
  }

  /** The descriptors with a non-empty mask. */
  function NonEmpty(m: Interest): map<int, Mask> {
    map fd | fd in m && m[fd] != NONE_EVENT :: m[fd]
  }

  // ----- PollPoller ----------------------------------------------------------------------------

  datatype PollFd = PollFd(fd: int, events: Mask)

  /** `pollfds_` and, for each registered descriptor, the index of its channel.  `raw` are the
      descriptors registered with an empty mask and not updated since. */
  datatype PollState = PollState(pollfds: seq<PollFd>, index: map<int, int>, raw: set<int>)

  /** A negative entry stands for an ignored descriptor. */
  function Decode(fd: int): int { if fd < 0 then -fd - 1 else fd }

  /** `updateChannel` for the channel of `fd` with mask `ev`. */
  function PollUpdate(s: PollState, fd: int, ev: Mask): PollState {
    if fd !in s.index then
      PollState(s.pollfds + [PollFd(fd, Short(ev))], s.index[fd := |s.pollfds|],
                if ev == NONE_EVENT then s.raw + {fd} else s.raw)
    else
      var i := s.index[fd];
      var p := PollFd(if ev == NONE_EVENT then -fd - 1 else fd, Short(ev));
      if 0 <= i < |s.pollfds| then s.(pollfds := s.pollfds[i := p], raw := s.raw - {fd}) else s
  }

  /** `removeChannel`: the last entry moves into the gap. */
  function PollRemove(s: PollState, fd: int): PollState
    requires fd in s.index && 0 <= s.index[fd] < |s.pollfds|
  {
    var i, n := s.index[fd], |s.pollfds| - 1;
    var index := s.index - {fd};
    if i == n then PollState(s.pollfds[..n], index, s.raw - {fd})
    else
      PollState(s.pollfds[i := s.pollfds[n]][..n], index[Decode(s.pollfds[n].fd) := i], s.raw - {fd})
  }

  /** What `poll(2)` watches: non-negative descriptors with their non-empty event sets. */
  function PollWatched(s: PollState): map<int, Mask>
    requires PollInv(s)
  {
    map fd | fd in s.index && s.pollfds[s.index[fd]].fd >= 0 && s.pollfds[s.index[fd]].events != NONE_EVENT
      :: s.pollfds[s.index[fd]].events
  }

  /** The index of `fd` leads to its entry. */
  ghost predicate HasEntry(s: PollState, fd: int) {
    fd >= 0 && fd in s.index && 0 <= s.index[fd] < |s.pollfds| && Decode(s.pollfds[s.index[fd]].fd) == fd
  }

  /** The i-th entry belongs to the descriptor with that index. */
  ghost predicate HasOwner(s: PollState, i: int)
    requires 0 <= i < |s.pollfds|
  {
    Decode(s.pollfds[i].fd) in s.index && s.index[Decode(s.pollfds[i].fd)] == i
  }

  /** Indices and entries are in bijection through the encoding. */
  ghost predicate PollInv(s: PollState) {
    && (forall fd :: fd in s.index ==> HasEntry(s, fd))
    && (forall i :: 0 <= i < |s.pollfds| ==> HasOwner(s, i))
    && s.raw <= s.index.Keys
  }

  /** The entry of `fd` records the mask `ev`, negated exactly for an empty mask that was not the very
      first one. */
  ghost predicate Records(s: PollState, fd: int, ev: Mask)
    requires HasEntry(s, fd)
  {
    var p := s.pollfds[s.index[fd]];
    && p.events == Short(ev) && (p.fd < 0 <==> ev == NONE_EVENT && fd !in s.raw)
    && (fd in s.raw ==> ev == NONE_EVENT)
  }

  /** The poller holds the interest `m`. */
  ghost predicate PollHolds(s: PollState, m: Interest) {
    && PollInv(s) && s.index.Keys == m.Keys
    && (forall fd :: fd in m ==> HasEntry(s, fd) && Records(s, fd, m[fd]))
  }

  lemma PollAddHolds(s: PollState, m: Interest, fd: int, ev: Mask)
    requires PollHolds(s, m) && fd >= 0 && fd !in s.index
    ensures PollHolds(PollUpdate(s, fd, ev), m[fd := ev])
  {
    var r, n := PollUpdate(s, fd, ev), |s.pollfds|;
    forall d | d in r.index
      ensures HasEntry(r, d) && Records(r, d, m[fd := ev][d])
    {
      if d != fd { assert HasEntry(s, d) && Records(s, d, m[d]); }
    }
    forall i | 0 <= i < |r.pollfds|
      ensures HasOwner(r, i)
    {
      if i < n { assert HasOwner(s, i); }
    }
  }

  lemma PollModifyHolds(s: PollState, m: Interest, fd: int, ev: Mask)
    requires PollHolds(s, m) && fd in s.index
    ensures PollHolds(PollUpdate(s, fd, ev), m[fd := ev])
  {
    var r := PollUpdate(s, fd, ev);
    assert HasEntry(s, fd);
    forall d | d in r.index
      ensures HasEntry(r, d) && Records(r, d, m[fd := ev][d])
    {
      assert HasEntry(s, d) && Records(s, d, m[d]);
      assert d != fd ==> s.index[d] != s.index[fd];
    }
    forall i | 0 <= i < |r.pollfds|
      ensures HasOwner(r, i)
    {
      assert HasOwner(s, i);
    }
  }

  lemma PollUpdateHolds(s: PollState, m: Interest, fd: int, ev: Mask)
    requires PollHolds(s, m) && fd >= 0
    ensures PollHolds(PollUpdate(s, fd, ev), m[fd := ev])
  {
    hide PollHolds, PollUpdate;
    if fd in s.index {
      PollModifyHolds(s, m, fd, ev);
    } else {
      PollAddHolds(s, m, fd, ev);
    }
  }

  lemma PollRemoveHolds(s: PollState, m: Interest, fd: int)
    requires PollHolds(s, m) && fd in m
    ensures PollHolds(PollRemove(s, fd), m - {fd})
  {
    var r := PollRemove(s, fd);
    var i, n := s.index[fd], |s.pollfds| - 1;
    assert HasEntry(s, fd) && HasOwner(s, n);
    forall d | d in r.index
      ensures d in s.index && d != fd && HasEntry(r, d) && Records(r, d, m[d])
    {
      assert HasEntry(s, d) && Records(s, d, m[d]);
      assert s.index[d] != i;
    }
    forall j | 0 <= j < n
      ensures HasOwner(r, j)
    {
      assert HasOwner(s, j);
    }
    assert r.index.Keys == (m - {fd}).Keys;
  }

  /** The assertion in `removeChannel` on a channel without interest, `pfd.fd == -fd - 1`, holds
      exactly when that channel was registered with a non-empty mask or updated since. */
  lemma PollRemoveAssertExactly(s: PollState, m: Interest, fd: int)
    requires PollHolds(s, m) && fd in m && m[fd] == NONE_EVENT
    ensures s.pollfds[s.index[fd]].fd == -fd - 1 <==> fd !in s.raw
    ensures s.pollfds[s.index[fd]].events == m[fd]
  {
    assert HasEntry(s, fd) && Records(s, fd, m[fd]);
  }

  lemma PollWatchesInterest(s: PollState, m: Interest)
    requires PollHolds(s, m)
    ensures PollWatched(s) == NonEmpty(map fd | fd in m :: Short(m[fd]))
  {
    var a, b := PollWatched(s), NonEmpty(map fd | fd in m :: Short(m[fd]));
    assert forall fd :: fd in a <==> fd in b;
    assert a.Keys == b.Keys;
    assert forall fd :: fd in a ==> a[fd] == b[fd];
    assert a == b;
  }

  // ----- EPollPoller ---------------------------------------------------------------------------

  datatype EIndex = Added | Deleted

  datatype CtlOp = CtlAdd | CtlMod | CtlDel

  /** `channels_` with the index of each channel, the kernel's table, and the number of
      `epoll_ctl` calls that failed. */
  datatype EPollState = EPollState(index: map<int, EIndex>, kernel: map<int, Mask>, failures: nat)

  /** `epoll_ctl`: ADD fails on a present descriptor, MOD and DEL on an absent one. */
  function Ctl(s: EPollState, op: CtlOp, fd: int, ev: Mask): EPollState {
    if (op == CtlAdd) == (fd in s.kernel) then s.(failures := s.failures + 1)
    else if op == CtlDel then s.(kernel := s.kernel - {fd})
    else s.(kernel := s.kernel[fd := ev])
  }

  function EPollUpdate(s: EPollState, fd: int, ev: Mask): EPollState {
    if fd !in s.index || s.index[fd] == Deleted then
      Ctl(s.(index := s.index[fd := Added]), CtlAdd, fd, ev)
    else if ev == NONE_EVENT then
      Ctl(s, CtlDel, fd, ev).(index := s.index[fd := Deleted])
    else
      Ctl(s, CtlMod, fd, ev)
  }

  function EPollRemove(s: EPollState, fd: int): EPollState
    requires fd in s.index
  {
    var s' := s.(index := s.index - {fd});
    if s.index[fd] == Added then Ctl(s', CtlDel, fd, NONE_EVENT) else s'
  }

  /** The kernel knows exactly the added channels, with their masks; deleted ones have none; and no
      `epoll_ctl` has failed. */
  ghost predicate EPollHolds(s: EPollState, m: Interest) {
    && s.index.Keys == m.Keys && s.failures == 0
    && (forall fd :: fd in s.kernel <==> fd in s.index && s.index[fd] == Added)
    && (forall fd :: fd in s.kernel ==> fd in m && s.kernel[fd] == m[fd])
    && (forall fd :: fd in s.index && s.index[fd] == Deleted ==> m[fd] == NONE_EVENT)
  }

  lemma EPollUpdateHolds(s: EPollState, m: Interest, fd: int, ev: Mask)
    requires EPollHolds(s, m)
    ensures EPollHolds(EPollUpdate(s, fd, ev), m[fd := ev]) && EPollUpdate(s, fd, ev).failures == 0
  {
  }

  /** Which call is made: a channel the kernel knows is taken out when it loses its last interest and
      changed otherwise; any other is added, whatever its mask. */
  lemma EPollCalls(s: EPollState, m: Interest, fd: int, ev: Mask)
    requires EPollHolds(s, m)
    ensures var r := EPollUpdate(s, fd, ev);
            && (if fd in s.index && s.index[fd] == Added && ev == NONE_EVENT
                then fd !in r.kernel && r.index == s.index[fd := Deleted]
                else fd in r.kernel && r.kernel[fd] == ev && r.index == s.index[fd := Added])
            && (forall d :: d != fd ==> (d in r.kernel <==> d in s.kernel))
            && (forall d :: d in s.kernel && d != fd ==> r.kernel[d] == s.kernel[d])
  {
    if fd in s.index && s.index[fd] == Added && ev != NONE_EVENT {
      assert s.index[fd := Added] == s.index;
    }
  }

  lemma EPollRemoveHolds(s: EPollState, m: Interest, fd: int)
    requires EPollHolds(s, m) && fd in m
    ensures EPollHolds(EPollRemove(s, fd), m - {fd})
  {
  }

  lemma EPollWatchesInterest(s: EPollState, m: Interest)
    requires EPollHolds(s, m)
    ensures NonEmpty(s.kernel) == NonEmpty(m)
  {
    var a, b := NonEmpty(s.kernel), NonEmpty(m);
    assert forall fd :: fd in a <==> fd in b;
    assert a.Keys == b.Keys;
    assert forall fd :: fd in a ==> a[fd] == b[fd];
    assert a == b;
  }

  // ----- Runs of both --------------------------------------------------------------------------

  datatype Pair = Pair(poll: PollState, epoll: EPollState, interest: Interest)

  const Init := Pair(PollState([], map[], {}), EPollState(map[], map[], 0), map[])

  /** Descriptors are non-negative; a channel is removed only while registered, without interest,
      and not straight after a first registration with an empty mask. */
  predicate Enabled(s: Pair, op: Op) {
    match op
    case Update(fd, _) => fd >= 0
    case Remove(fd) => fd in s.interest && s.interest[fd] == NONE_EVENT && fd !in s.poll.raw
  }

  ghost predicate Inv(s: Pair) {
    && PollHolds(s.poll, s.interest)
    && EPollHolds(s.epoll, s.interest)
  }

  ghost function Next(s: Pair, op: Op): (r: Pair)
    requires Inv(s) && Enabled(s, op)
    ensures Inv(r) && r.interest == Apply(s.interest, op)
  {
    match op
    case Update(fd, o) =>
      var ev := Change(MaskOf(s.interest, fd), o);
      PollUpdateHolds(s.poll, s.interest, fd, ev);
      EPollUpdateHolds(s.epoll, s.interest, fd, ev);
      Pair(PollUpdate(s.poll, fd, ev), EPollUpdate(s.epoll, fd, ev), s.interest[fd := ev])
    case Remove(fd) =>
      PollRemoveHolds(s.poll, s.interest, fd);
      EPollRemoveHolds(s.epoll, s.interest, fd);
      Pair(PollRemove(s.poll, fd), EPollRemove(s.epoll, fd), s.interest - {fd})
  }

  ghost predicate Legal(s: Pair, ops: seq<Op>)
    decreases |ops|
  {
    Inv(s) && (ops == [] || (Enabled(s, ops[0]) && Legal(Next(s, ops[0]), ops[1..])))
  }

  ghost function Run(s: Pair, ops: seq<Op>): (r: Pair)
    requires Legal(s, ops)
    ensures Inv(r)
    decreases |ops|
  {
    if ops == [] then s else Run(Next(s, ops[0]), ops[1..])
  }

  function ApplyAll(m: Interest, ops: seq<Op>): Interest
    decreases |ops|
  {
    if ops == [] then m else ApplyAll(Apply(m, ops[0]), ops[1..])
  }

  lemma InitLegal()
    ensures Legal(Init, [])
  {
  }

  lemma {:induction false} RunFollowsSpec(s: Pair, ops: seq<Op>)
    requires Legal(s, ops)
    ensures Run(s, ops).interest == ApplyAll(s.interest, ops)
    decreases |ops|
  {
    hide Inv, Enabled;
    if ops != [] {
      RunFollowsSpec(Next(s, ops[0]), ops[1..]);
    }
  }

  /** In every run both pollers implement the same map: the epoll table holds exactly its non-empty
      masks and no `epoll_ctl` ever failed; poll watches the same without the edge-trigger flag. */
  lemma BothPollersWatchTheInterest(ops: seq<Op>)
    requires Legal(Init, ops)
    ensures var s := Run(Init, ops); var m := ApplyAll(map[], ops);
            && NonEmpty(s.epoll.kernel) == NonEmpty(m)
            && s.epoll.failures == 0
            && PollWatched(s.poll) == NonEmpty(map fd | fd in m :: Short(m[fd]))
  {
    RunFollowsSpec(Init, ops);
    var s := Run(Init, ops);
    PollWatchesInterest(s.poll, s.interest);
    EPollWatchesInterest(s.epoll, s.interest);
  }

  /** They watch exactly the same descriptors with the same masks if and only if no channel has
      edge triggering switched on, which a `pollfd` cannot express. */
  lemma SameUnlessEdgeTriggered(ops: seq<Op>)
    requires Legal(Init, ops)
    ensures var s := Run(Init, ops);
            PollWatched(s.poll) == NonEmpty(s.epoll.kernel)
            <==> forall fd :: fd in s.interest ==> !s.interest[fd].edge
  {
    hide Inv, PollWatched, Run, Legal, ApplyAll;
    BothPollersWatchTheInterest(ops);
    RunFollowsSpec(Init, ops);
    CutIsEqual(Run(Init, ops).interest);
  }

  lemma CutIsEqual(m: Interest)
    ensures NonEmpty(map fd | fd in m :: Short(m[fd])) == NonEmpty(m)
            <==> forall fd :: fd in m ==> !m[fd].edge
  {
    var cut := map fd | fd in m :: Short(m[fd]);
    if NonEmpty(cut) == NonEmpty(m) {
      forall fd | fd in m
        ensures Short(m[fd]) == m[fd]
      {
        if m[fd] != NONE_EVENT {
          assert fd in NonEmpty(m);
          assert fd in NonEmpty(cut);
        }
      }
    }
    if forall fd :: fd in m ==> !m[fd].edge {
      assert cut == m;
    }
  }
}
