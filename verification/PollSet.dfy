/** libev's poll backend: a dense array of pollfds and an array of their positions. */
module PollSet {
  import opened FdChanges

  datatype PollFd = PollFd(fd: nat, events: Mask)

  /** array_nextsize before its rounding: the first doubling of cur + 1 that is at least cnt. */
  method NextSize(cur: nat, cnt: nat) returns (ncur: nat)
    ensures ncur >= cnt && ncur >= 2 * (cur + 1)
  {
    ncur := 2 * (cur + 1);
    while cnt > ncur
      invariant ncur >= 2 * (cur + 1)
      decreases cnt - ncur
    {
      ncur := 2 * ncur;
    }
  }

  /** array_needsize: the entries stay, and new ones get the value `fill`. */
  method NeedSize<T>(base: array<T>, cnt: nat, fill: T) returns (r: array<T>)
    ensures r.Length >= cnt && r.Length >= base.Length && (r == base || fresh(r))
    ensures forall i {:trigger r[i]} :: 0 <= i < r.Length ==> r[i] == if i < base.Length then old(base[i]) else fill
  {
    r := base;
    if cnt > base.Length {
      var n := NextSize(base.Length, cnt);
      r := new T[n](i requires 0 <= i reads base => if i < base.Length then base[i] else fill);
    }
  }

  class Polls {
    var polls: array<PollFd>
    var pollidxs: array<int>  // -1: the fd is not in polls
    var pollcnt: nat
    ghost var masks: map<nat, Mask> // the abstract value

    /** The two arrays are inverse to each other on the fds of the table. */
    ghost predicate Linked()
      reads this, polls, pollidxs
    {
      && pollcnt <= polls.Length
      && (forall i {:trigger polls[i]} :: 0 <= i < pollcnt ==>
        polls[i].fd < pollidxs.Length && pollidxs[polls[i].fd] == i
        && polls[i].fd in masks && masks[polls[i].fd] == polls[i].events)
      && (forall fd {:trigger pollidxs[fd]} :: 0 <= fd < pollidxs.Length ==>
        if fd in masks then 0 <= pollidxs[fd] < pollcnt && polls[pollidxs[fd]].fd == fd else pollidxs[fd] == -1)
      && (forall fd {:trigger fd in masks} :: fd in masks ==> fd < pollidxs.Length)
    }

    /** The dense array holds just the fds with a mask that is not empty. */
    ghost predicate Valid()
      reads this, polls, pollidxs
    {
      Linked() && forall fd {:trigger fd in masks} :: fd in masks ==> masks[fd] != {}
    }

    constructor ()
      ensures Valid() && masks == map[] && fresh(polls) && fresh(pollidxs)
    {
      polls, pollidxs, pollcnt, masks := new PollFd[0], new int[0], 0, map[];
    }

    /** Finds a place for an fd that has none; the events in it are arbitrary. */
    method Allocate(fd: nat)
      requires Linked() && fd < pollidxs.Length && fd !in masks
      modifies this, polls, pollidxs
      ensures Linked() && pollidxs == old(pollidxs) && (polls == old(polls) || fresh(polls))
      ensures masks.Keys == old(masks.Keys) + {fd} && forall x {:trigger x in masks} :: x in old(masks) ==>
        masks[x] == old(masks)[x]
    {
      var idx := pollcnt;
      pollidxs[fd] := idx;
      pollcnt := pollcnt + 1;
      polls := NeedSize(polls, pollcnt, PollFd(fd, {}));
      polls[idx] := polls[idx].(fd := fd);
      masks := masks[fd := polls[idx].events];
    }

    /** Takes out an fd; the last pollfd takes its place. */
    method Remove(fd: nat)
      requires Linked() && fd in masks
      modifies this`pollcnt, this`masks, polls, pollidxs
      ensures Linked() && masks == old(masks) - {fd}
    {
      var idx := pollidxs[fd];
      assert polls[idx].fd == fd;
      pollidxs[fd] := -1;
      pollcnt := pollcnt - 1;
      if idx < pollcnt {
        polls[idx] := polls[pollcnt];
        pollidxs[polls[idx].fd] := idx;
      }
      masks := masks - {fd};
    }

    /** poll_modify.  When the masks differ the table is updated; the caller that says they
        are the same is believed. */
    method PollModify(fd: nat, oev: Mask, nev: Mask)
      requires Valid()
      modifies this, polls, pollidxs
      ensures Valid() && (polls == old(polls) || fresh(polls)) && (pollidxs == old(pollidxs) || fresh(pollidxs))
      ensures masks == if oev == nev then old(masks) else if nev == {} then old(masks) - {fd} else old(masks)[fd := nev]
    {
      if oev != nev {
        Modify(fd, nev);
      }
    }

    method Modify(fd: nat, nev: Mask)
      requires Valid()
      modifies this, polls, pollidxs
      ensures Valid() && (polls == old(polls) || fresh(polls)) && (pollidxs == old(pollidxs) || fresh(pollidxs))
      ensures masks == if nev == {} then old(masks) - {fd} else old(masks)[fd := nev]
    {
      pollidxs := NeedSize(pollidxs, fd + 1, -1);
      if pollidxs[fd] < 0 {
        Allocate(fd);
      }
      if nev != {} {
        SetEvents(fd, nev);
      } else {
        Remove(fd);
      }
    }

    method SetEvents(fd: nat, nev: Mask)
      requires Linked() && fd in masks
      modifies this`masks, polls
      ensures Linked() && masks == old(masks)[fd := nev]
    {
      var idx := pollidxs[fd];
      assert polls[idx].fd == fd;
      polls[idx] := polls[idx].(events := nev);
      masks := masks[fd := nev];
    }

    /** After a change that the caller describes truly the table is right. */
    lemma Honest(before: map<nat, Mask>, fd: nat, oev: Mask, nev: Mask)
      requires masks == if oev == nev then before else if nev == {} then before - {fd} else before[fd := nev]
      requires oev == if fd in before then before[fd] else {}
      requires forall x {:trigger x in before} :: x in before ==> before[x] != {}
      ensures forall x: nat {:trigger x in masks} ::
        (if x in masks then masks[x] else {}) == if x == fd then nev else if x in before then before[x] else {}
    {
    }

    /** The prefix handed to poll() has each fd of the table once, and no other. */
    lemma Dense()
      requires Valid()
      ensures (set i | 0 <= i < pollcnt :: polls[i].fd) == masks.Keys
      ensures forall i, j :: 0 <= i < j < pollcnt ==> polls[i].fd != polls[j].fd
    {
      forall fd | fd in masks ensures exists i :: 0 <= i < pollcnt && polls[i].fd == fd {
        var i := pollidxs[fd];
        assert polls[i].fd == fd;
      }
    }
  }
}
