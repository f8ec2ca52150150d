/** `Channel`, `PollPoller` and `EPollPoller` as objects: the index a channel carries is written by
    the poller it is registered with. */
module Pollers {
  import opened PollerModel

  class Channel {
    const fd: int
    var events: Mask
    var index: int

    constructor (fd: int)
      requires fd >= 0
      ensures this.fd == fd && events == NONE_EVENT && index == -1
    {
      this.fd := fd;
      events, index := NONE_EVENT, -1;
    }

    // The mask operations, without the update of the poller that follows each of them.

    method EnableReading()
      modifies this`events
      ensures events == Change(old(events), MaskOp.EnableReading)
    {
      events := events.(read := true);
    }

    method EnableWriting()
      modifies this`events
      ensures events == Change(old(events), MaskOp.EnableWriting)
    {
      events := events.(write := true);
    }

    method DisableWriting()
      modifies this`events
      ensures events == Change(old(events), MaskOp.DisableWriting)
    {
      events := events.(write := false);
    }

    method EnableET()
      modifies this`events
      ensures events == Change(old(events), MaskOp.EnableET)
    {
      events := events.(edge := true);
    }

    method DisableET()
      modifies this`events
      ensures events == Change(old(events), MaskOp.DisableET)
    {
      events := events.(edge := false);
    }

    method DisableAll()
      modifies this`events
      ensures events == Change(old(events), MaskOp.DisableAll)
    {
      events := NONE_EVENT;
    }
  }

  ghost predicate KeyedByFd(channels: map<int, Channel>) {
    forall fd :: fd in channels ==> channels[fd].fd == fd && fd >= 0
  }

  /** The channels of `channels` carry the indices in `index`. */
  ghost predicate Carry(channels: map<int, Channel>, members: set<Channel>, index: map<int, int>)
    reads members
  {
    && KeyedByFd(channels)
    && (forall fd :: fd in channels <==> fd in index)
    && (forall fd :: fd in channels ==> channels[fd] in members && channels[fd].index == index[fd])
  }

  lemma CarryKey(channels: map<int, Channel>, members: set<Channel>, index: map<int, int>, fd: int)
    requires Carry(channels, members, index)
    ensures fd in channels <==> fd in index
  {
  }

  lemma CarryRemove(channels: map<int, Channel>, members: set<Channel>, index: map<int, int>, fd: int)
    requires Carry(channels, members, index)
    ensures Carry(channels - {fd}, members, index - {fd})
    ensures fd in channels <==> fd in index
    ensures fd in channels ==> channels[fd].index == index[fd] && channels[fd] in members
  {
  }

  /** Writing a new index into one registered channel. */
  method SetIndex(channels: map<int, Channel>, ghost members: set<Channel>, ghost index: map<int, int>,
                  fd: int, idx: int)
    requires Carry(channels, members, index) && fd in channels
    modifies {channels[fd]}`index
    ensures Carry(channels, members, index[fd := idx]) && channels[fd].index == idx
    ensures forall ch: Channel :: ch in members && ch.fd != fd ==> ch.index == old(ch.index)
  {
    channels[fd].index := idx;
  }

  /** What the codes say about one channel. */
  lemma CarryCode(channels: map<int, Channel>, members: set<Channel>, index: map<int, EIndex>, fd: int)
    requires Carry(channels, members, Codes(index))
    ensures fd in channels <==> fd in index
    ensures fd in channels ==> channels[fd].index == Code(index[fd]) && channels[fd].fd == fd >= 0
  {
  }

  /** A removed channel gets the index of a new one. */
  method Unregister(channels: map<int, Channel>, ghost members: set<Channel>, ghost index: map<int, int>, ch: Channel)
    requires Carry(channels, members, index) && ch.fd !in channels
    modifies ch`index
    ensures Carry(channels, members, index) && ch.index == K_NEW
  {
    assert forall fd :: fd in channels ==> channels[fd] != ch;
    ch.index := K_NEW;
  }

  /** Registering a new channel. */
  method Register(channels: map<int, Channel>, ghost members: set<Channel>, ghost index: map<int, int>,
                  ch: Channel, idx: int)
    requires Carry(channels, members, index) && ch.fd !in channels && ch.fd >= 0
    modifies ch`index
    ensures Carry(channels[ch.fd := ch], members + {ch}, index[ch.fd := idx]) && ch.index == idx
  {
    assert forall fd :: fd in channels ==> channels[fd] != ch;
    ch.index := idx;
  }

  // ----- PollPoller ----------------------------------------------------------------------------

  class PollPoller {
    var pollfds: seq<PollFd>
    var channels: map<int, Channel>
    ghost var members: set<Channel>
    ghost var index: map<int, int>
    ghost var raw: set<int>
    ghost var interest: Interest

    ghost function State(): PollState
      reads this
    {
      PollState(pollfds, index, raw)
    }

    /** The registered channels carry the indices of the abstract state. */
    ghost predicate Valid()
      reads this, members
    {
      && Carry(channels, members, index)
      && PollHolds(State(), interest)
    }

    /** What the assertions of `updateChannel` demand: a channel with a negative index is new, any
        other is the registered one. */
    ghost predicate CanUpdate(ch: Channel)
      reads this, ch
    {
      ch.fd >= 0 && if ch.index < 0 then ch.fd !in channels else ch.fd in channels && channels[ch.fd] == ch
    }

    constructor ()
      ensures Valid() && interest == map[] && channels == map[]
    {
      pollfds, channels, members, index, raw, interest := [], map[], {}, map[], {}, map[];
    }

    /** The branch of `updateChannel` for a new channel. */
    method AddChannel(ch: Channel)
      requires Valid() && CanUpdate(ch) && ch.index < 0
      modifies this, ch`index
      ensures Valid() && CanUpdate(ch) && ch.index >= 0
      ensures State() == PollUpdate(old(State()), ch.fd, ch.events)
      ensures interest == old(interest)[ch.fd := ch.events] && channels == old(channels)[ch.fd := ch]
    {
      hide PollHolds, Short, Carry, KeyedByFd;
      CarryKey(channels, members, index, ch.fd);
      ghost var goal := PollUpdate(State(), ch.fd, ch.events);
      PollUpdateHolds(State(), interest, ch.fd, ch.events);
      pollfds := pollfds + [PollFd(ch.fd, Short(ch.events))];
      raw := if ch.events == NONE_EVENT then raw + {ch.fd} else raw;
      var idx := |pollfds| - 1;
      Register(channels, members, index, ch, idx);
      index := index[ch.fd := idx];
      channels := channels[ch.fd := ch];
      members := members + {ch};
      interest := interest[ch.fd := ch.events];
      assert State() == goal;
    }

    /** The branch for a registered one. */
    method ModifyChannel(ch: Channel)
      requires Valid() && CanUpdate(ch) && ch.index >= 0
      modifies this`pollfds, this`raw, this`interest
      ensures Valid()
      ensures State() == PollUpdate(old(State()), ch.fd, ch.events)
      ensures interest == old(interest)[ch.fd := ch.events]
    {
      EntryOf(State(), interest, ch.fd);
      hide PollHolds;
      PollUpdateHolds(State(), interest, ch.fd, ch.events);
      var idx := ch.index;
      assert 0 <= idx < |pollfds|;
      assert pollfds[idx].fd == ch.fd || pollfds[idx].fd == -ch.fd - 1;
      var pfd := PollFd(ch.fd, Short(ch.events));
      if ch.events == NONE_EVENT {
        pfd := pfd.(fd := -ch.fd - 1);
      }
      pollfds := pollfds[idx := pfd];
      raw := raw - {ch.fd};
      interest := interest[ch.fd := ch.events];
    }

    static lemma EntryOf(s: PollState, m: Interest, fd: int)
      requires PollHolds(s, m) && fd in s.index
      ensures 0 <= s.index[fd] < |s.pollfds| && Decode(s.pollfds[s.index[fd]].fd) == fd
    {
    }

    method UpdateChannel(ch: Channel)
      requires Valid() && CanUpdate(ch)
      modifies this, ch`index
      ensures Valid() && CanUpdate(ch) && ch.index >= 0
      ensures State() == PollUpdate(old(State()), ch.fd, ch.events)
      ensures interest == old(interest)[ch.fd := ch.events] && channels == old(channels)[ch.fd := ch]
    {
      hide PollHolds;
      if ch.index < 0 {
        AddChannel(ch);
      } else {
        ModifyChannel(ch);
        assert channels == channels[ch.fd := ch];
      }
    }

    /** `removeChannel` for the channel of the last entry. */
    method RemoveLast(ch: Channel)
      requires Valid() && ch.fd in channels && channels[ch.fd] == ch
      requires ch.events == NONE_EVENT && interest[ch.fd] == ch.events && ch.fd !in raw
      requires ch.index == |pollfds| - 1
      modifies this
      ensures Valid() && State() == PollRemove(old(State()), ch.fd)
      ensures interest == old(interest) - {ch.fd} && channels == old(channels) - {ch.fd}
      ensures ch.index == old(ch.index) >= 0
    {
      RemoveFacts(State(), interest, ch.fd);
      ghost var goal := PollRemove(State(), ch.fd);
      CarryRemove(channels, members, index, ch.fd);
      hide PollHolds, Carry;
      channels := channels - {ch.fd};
      index := index - {ch.fd};
      pollfds := pollfds[..|pollfds| - 1];
      raw := raw - {ch.fd};
      interest := interest - {ch.fd};
      assert State() == goal;
      hide PollRemove;
      assert Carry(channels, members, index);
    }

    /** `removeChannel` for another channel: the last entry moves into the gap. */
    method RemoveInner(ch: Channel)
      requires Valid() && ch.fd in channels && channels[ch.fd] == ch
      requires ch.events == NONE_EVENT && interest[ch.fd] == ch.events && ch.fd !in raw
      requires ch.index < |pollfds| - 1
      modifies this, members`index
      ensures Valid() && State() == PollRemove(old(State()), ch.fd)
      ensures interest == old(interest) - {ch.fd} && channels == old(channels) - {ch.fd}
      ensures ch.index == old(ch.index) >= 0
    {
      hide PollHolds, Carry, KeyedByFd;
      CarryRemove(channels, members, index, ch.fd);
      RemoveFacts(State(), interest, ch.fd);
      ghost var s := State();
      var idx := ch.index;
      var n := |pollfds| - 1;
      InnerFields(s, ch.fd);
      hide PollRemove, Swap;
      channels := channels - {ch.fd};
      var channelAtEnd := pollfds[n].fd;
      pollfds := Swap(pollfds, idx, n);
      if channelAtEnd < 0 {
        channelAtEnd := -channelAtEnd - 1;
      }
      SetIndex(channels, members, index - {ch.fd}, channelAtEnd, idx);
      index := (index - {ch.fd})[channelAtEnd := idx];
      pollfds := pollfds[..n];
      raw := raw - {ch.fd};
      interest := interest - {ch.fd};
    }

    /** A removed channel keeps its index, so it can not be registered again. */
    method RemoveChannel(ch: Channel)
      requires Valid() && ch.fd in channels && channels[ch.fd] == ch
      requires ch.events == NONE_EVENT && interest[ch.fd] == ch.events && ch.fd !in raw
      modifies this, members`index
      ensures Valid() && State() == PollRemove(old(State()), ch.fd)
      ensures interest == old(interest) - {ch.fd} && channels == old(channels) - {ch.fd}
      ensures ch.index == old(ch.index) >= 0
      ensures !CanUpdate(ch)
    {
      RemoveFacts(State(), interest, ch.fd);
      hide PollHolds;
      assert 0 <= ch.index < |pollfds|;
      assert pollfds[ch.index].fd == -ch.fd - 1 && pollfds[ch.index].events == ch.events;
      if ch.index == |pollfds| - 1 {
        RemoveLast(ch);
      } else {
        RemoveInner(ch);
      }
    }

    /** `iter_swap`. */
    static function Swap(ps: seq<PollFd>, i: int, j: int): (r: seq<PollFd>)
      requires 0 <= i < j == |ps| - 1
      ensures |r| == |ps| && r[..j] == ps[i := ps[j]][..j]
    {
      ps[i := ps[j]][j := ps[i]]
    }

    /** The new fields when the last entry moves into the gap. */
    static lemma InnerFields(s: PollState, fd: int)
      requires fd in s.index && 0 <= s.index[fd] < |s.pollfds| - 1
      ensures var i, n := s.index[fd], |s.pollfds| - 1;
              PollRemove(s, fd)
              == PollState(Swap(s.pollfds, i, n)[..n], (s.index - {fd})[Decode(s.pollfds[n].fd) := i], s.raw - {fd})
    {
    }

    static lemma RemoveFacts(s: PollState, m: Interest, fd: int)
      requires PollHolds(s, m) && fd in s.index && (fd in m ==> m[fd] == NONE_EVENT) && fd !in s.raw
      ensures fd in m && 0 <= s.index[fd] < |s.pollfds| && s.pollfds[s.index[fd]] == PollFd(-fd - 1, NONE_EVENT)
      ensures var n := |s.pollfds| - 1; var last := Decode(s.pollfds[n].fd);
              && last == (if s.pollfds[n].fd < 0 then -s.pollfds[n].fd - 1 else s.pollfds[n].fd)
              && last in s.index && (s.index[fd] != n ==> last != fd)
      ensures PollHolds(PollRemove(s, fd), m - {fd})
    {
      PollRemoveHolds(s, m, fd);
      PollRemoveAssertExactly(s, m, fd);
      assert HasEntry(s, fd) && HasOwner(s, |s.pollfds| - 1);
    }
  }

  // ----- EPollPoller ---------------------------------------------------------------------------

  const K_NEW := -1
  const K_ADDED := 1
  const K_DELETED := 2

  function Code(i: EIndex): int { if i == Added then K_ADDED else K_DELETED }

  ghost function Codes(index: map<int, EIndex>): map<int, int> { map fd | fd in index :: Code(index[fd]) }

  lemma CodesChange(index: map<int, EIndex>, fd: int, i: EIndex)
    ensures Codes(index[fd := i]) == Codes(index)[fd := Code(i)]
    ensures Codes(index - {fd}) == Codes(index) - {fd}
  {
  }

  class EPollPoller {
    var channels: map<int, Channel>
    ghost var members: set<Channel>
    ghost var index: map<int, EIndex>
    ghost var kernel: map<int, Mask>
    ghost var failures: nat
    ghost var interest: Interest

    ghost function State(): EPollState
      reads this
    {
      EPollState(index, kernel, failures)
    }

    ghost predicate Valid()
      reads this, members
    {
      && Carry(channels, members, Codes(index))
      && EPollHolds(State(), interest)
    }

    ghost predicate CanUpdate(ch: Channel)
      reads this, ch
    {
      ch.fd >= 0 && if ch.index == K_NEW then ch.fd !in channels else ch.fd in channels && channels[ch.fd] == ch
    }

    constructor ()
      ensures Valid() && interest == map[] && channels == map[]
    {
      channels, members, index, kernel, failures, interest := map[], {}, map[], map[], 0, map[];
    }

    /** `update`: the `epoll_ctl` call. */
    ghost method Control(op: CtlOp, fd: int, ev: Mask)
      modifies this`kernel, this`failures
      ensures State() == Ctl(old(State()), op, fd, ev)
    {
      if (op == CtlAdd) == (fd in kernel) {
        failures := failures + 1;
      } else if op == CtlDel {
        kernel := kernel - {fd};
      } else {
        kernel := kernel[fd := ev];
      }
    }

    /** The branch of `updateChannel` for channels the kernel does not know. */
    method AddChannel(ch: Channel)
      requires Valid() && CanUpdate(ch) && (ch.index == K_NEW || ch.index == K_DELETED)
      modifies this, ch`index
      ensures Valid() && CanUpdate(ch) && ch.index == K_ADDED && failures == 0
      ensures State() == EPollUpdate(old(State()), ch.fd, ch.events)
      ensures interest == old(interest)[ch.fd := ch.events] && channels == old(channels)[ch.fd := ch]
    {
      hide EPollHolds, Ctl, Carry, KeyedByFd, Codes;
      CarryCode(channels, members, index, ch.fd);
      ghost var goal := EPollUpdate(State(), ch.fd, ch.events);
      EPollUpdateHolds(State(), interest, ch.fd, ch.events);
      CodesChange(index, ch.fd, Added);
      if ch.index == K_NEW {
        Register(channels, members, Codes(index), ch, K_ADDED);
        channels := channels[ch.fd := ch];
        members := members + {ch};
      } else {
        assert channels == channels[ch.fd := ch];
        SetIndex(channels, members, Codes(index), ch.fd, K_ADDED);
      }
      index := index[ch.fd := Added];
      Control(CtlAdd, ch.fd, ch.events);
      interest := interest[ch.fd := ch.events];
      assert State() == goal;
    }

    /** The branch for channels the kernel knows. */
    method ModifyChannel(ch: Channel)
      requires Valid() && CanUpdate(ch) && ch.index == K_ADDED
      modifies this, ch`index
      ensures Valid() && CanUpdate(ch) && ch.index != K_NEW && failures == 0
      ensures State() == EPollUpdate(old(State()), ch.fd, ch.events)
      ensures interest == old(interest)[ch.fd := ch.events] && channels == old(channels)
    {
      hide EPollHolds, Ctl;
      ghost var goal := EPollUpdate(State(), ch.fd, ch.events);
      EPollUpdateHolds(State(), interest, ch.fd, ch.events);
      CarryCode(channels, members, index, ch.fd);
      CodesChange(index, ch.fd, Deleted);
      hide Carry, Codes;
      if ch.events == NONE_EVENT {
        Control(CtlDel, ch.fd, ch.events);
        SetIndex(channels, members, Codes(index), ch.fd, K_DELETED);
        index := index[ch.fd := Deleted];
      } else {
        Control(CtlMod, ch.fd, ch.events);
      }
      interest := interest[ch.fd := ch.events];
      assert State() == goal;
    }

    method UpdateChannel(ch: Channel)
      requires Valid() && CanUpdate(ch)
      modifies this, ch`index
      ensures Valid() && CanUpdate(ch) && ch.index != K_NEW && failures == 0
      ensures State() == EPollUpdate(old(State()), ch.fd, ch.events)
      ensures interest == old(interest)[ch.fd := ch.events] && channels == old(channels)[ch.fd := ch]
    {
      hide EPollHolds;
      if ch.index == K_NEW || ch.index == K_DELETED {
        AddChannel(ch);
      } else {
        assert ch.index == K_ADDED;
        ModifyChannel(ch);
        assert channels == channels[ch.fd := ch];
      }
    }

    static lemma InterestKey(s: EPollState, m: Interest, fd: int)
      requires EPollHolds(s, m)
      ensures fd in s.index <==> fd in m
    {
    }

    /** A removed channel is new again. */
    method RemoveChannel(ch: Channel)
      requires Valid() && ch.fd in channels && channels[ch.fd] == ch
      requires ch.events == NONE_EVENT && interest[ch.fd] == ch.events
      modifies this, ch`index
      ensures Valid() && State() == EPollRemove(old(State()), ch.fd)
      ensures interest == old(interest) - {ch.fd} && channels == old(channels) - {ch.fd}
      ensures CanUpdate(ch)
    {
      hide EPollHolds, Carry, KeyedByFd, Codes, Ctl;
      CarryCode(channels, members, index, ch.fd);
      InterestKey(State(), interest, ch.fd);
      EPollRemoveHolds(State(), interest, ch.fd);
      CodesChange(index, ch.fd, Added);
      CarryRemove(channels, members, Codes(index), ch.fd);
      assert ch.index == K_ADDED || ch.index == K_DELETED;
      var added := ch.index == K_ADDED;
      Unregister(channels - {ch.fd}, members, Codes(index - {ch.fd}), ch);
      channels, index, interest := channels - {ch.fd}, index - {ch.fd}, interest - {ch.fd};
      if added {
        Control(CtlDel, ch.fd, ch.events);
      }
    }
  }
}
