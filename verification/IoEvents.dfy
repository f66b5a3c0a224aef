/** Io watchers between the two halves of the loop: the table of changes and the backend on
    one side, the queue of pending watchers on the other. */
module IoEvents {
  import opened Watchers
  import F = FdChanges
  import P = PendingQueue

  /** EV_ERROR | EV_READ | EV_WRITE, what fd_kill feeds. */
  const GONE: Events := {Error, Read, Write}

  function Bits(mask: F.Mask): (bits: Events)
    ensures forall b: Event :: b in bits <==> (b == Read && F.R in mask) || (b == Write && F.W in mask)
  {
    (if F.R in mask then {Read} else {}) + if F.W in mask then {Write} else {}
  }

  /** The first n entries of the list, as they are fed to the queue. */
  ghost function FedLog(list: seq<F.Entry>, n: nat): seq<P.Entry>
    requires n <= |list|
  {
    if n == 0 then [] else FedLog(list, n - 1) + [P.Fed(list[n - 1].w, Bits(list[n - 1].events))]
  }

  /** What is due in d after an error was fed to the first n of the list, and to nobody else. */
  ghost function GoneTable(d: P.Table, list: seq<Watcher>, n: nat): P.Table
    requires n <= |list|
  {
    if n == 0 then d else GoneTable(d, list, n - 1)[list[n - 1] := GONE]
  }

  /** An error and nothing else is due of each of the list; of the others what was due. */
  lemma {:induction false} GoneTableIs(d: P.Table, list: seq<Watcher>, n: nat)
    requires n <= |list|
    ensures GoneTable(d, list, n).Keys == d.Keys + (set k | 0 <= k < n :: list[k])
    ensures forall k {:trigger list[k]} :: 0 <= k < n ==> GoneTable(d, list, n)[list[k]] == {Error, Read, Write}
    ensures forall v {:trigger v in d} :: v in d && (forall k {:trigger list[k]} :: 0 <= k < n ==> list[k] != v) ==>
      GoneTable(d, list, n)[v] == d[v]
  {
    if n > 0 {
      GoneTableIs(d, list, n - 1);
      assert (set k | 0 <= k < n :: list[k]) == (set k | 0 <= k < n - 1 :: list[k]) + {list[n - 1]};
    }
  }

  /** Cleared and then fed: just the new events are due. */
  lemma ClearedAndFed(d: P.Table, w: Watcher)
    ensures (d - {w})[w := P.EventsOf(d - {w}, w) + GONE] == d[w := GONE]
  {
    assert P.EventsOf(d - {w}, w) + GONE == GONE;
  }

  lemma Behind<T>(a: seq<T>, b: seq<T>)
    ensures (a + b)[|a|..] == b
  {
  }

  lemma Joined<T>(a: seq<T>, b: seq<T>, x: T)
    ensures a + b + [x] == a + (b + [x])
  {
  }

  class IoLoop {
    const loop: F.EpollLoop
    const queue: P.Pendings

    ghost predicate Valid()
      reads loop, queue`pendings, queue`alive, queue`owner, queue`due, queue`log
      reads queue.alive`pending
    {
      loop.Valid() && queue.Ready() && loop.started.Keys <= queue.alive
    }

    constructor ()
      ensures Valid() && loop.started == map[] && queue.due == map[]
    {
      loop := new F.EpollLoop();
      queue := new P.Pendings();
    }

    /** The queue alone was changed. */
    twostate lemma LoopStays()
      requires old(loop.Valid()) && unchanged(loop)
      ensures loop.Valid()
    {
    }

    /** clear_pending, beside the table. */
    method Clear(w: Watcher)
      requires Valid() && w in queue.alive
      modifies queue`pendings, queue`due, queue`log, w`pending
      ensures Valid() && queue.due == old(queue.due) - {w} && queue.log == old(queue.log) + [P.Cleared(w)]
    {
      var _ := queue.ClearPending(w);
      LoopStays();
    }

    /** ev_feed_event, beside the table. */
    method Feed(w: Watcher, events: Events)
      requires Valid() && w in queue.alive
      modifies queue`pendings, queue`pendingpri, queue`due, queue`log, w`pending
      ensures Valid()
      ensures queue.due == old(queue.due)[w := old(P.EventsOf(queue.due, w)) + events]
      ensures queue.log == old(queue.log) + [P.Fed(w, events)]
    {
      queue.Feed(w, events);
      LoopStays();
    }

    /** ev_io_start.  The watcher heads the list of its fd, whose change is noted; of what is
        due nothing changes. */
    method Start(w: Watcher, fd: nat, events: F.Mask, fdset: bool)
      requires Valid() && w in queue.alive
      modifies loop`anfds, loop`started, loop`fdchanges, loop`stale
      ensures Valid()
      ensures if old(w in loop.started) then loop.anfds == old(loop.anfds) && loop.started == old(loop.started) else
        && loop.started == old(loop.started)[w := fd] && fd < |loop.anfds|
        && loop.anfds[fd].list
          == [F.Entry(w, events)] + (if fd < |old(loop.anfds)| then old(loop.anfds)[fd].list else [])
        && F.Reify in loop.anfds[fd].reify && (fdset ==> F.Fdset in loop.anfds[fd].reify)
    {
      loop.Start(w, fd, events, fdset);
    }

    /** ev_io_stop.  A stopped watcher is on no list, and nothing is due of it. */
    method Stop(w: Watcher)
      requires Valid() && w in queue.alive
      modifies queue`pendings, queue`due, queue`log, w`pending
      modifies loop`anfds, loop`started, loop`fdchanges
      ensures Valid() && loop.started == old(loop.started) - {w} && queue.due == old(queue.due) - {w}
      ensures old(w in loop.started) ==> var fd := old(loop.started)[w];
        loop.anfds == old(loop.anfds)[fd := old(loop.anfds)[fd].(list := F.Without(old(loop.anfds)[fd].list, w),
          reify := old(loop.anfds)[fd].reify + {F.Reify})]
      ensures queue.log == old(queue.log) + [P.Cleared(w)]
    {
      Clear(w);
      loop.Stop(w, 0);
    }

    /** What fd_kill does to one watcher after taking it off its list: whatever was due of it
        is cleared, and it is fed an error. */
    method FeedGone(w: Watcher)
      requires Valid() && w in queue.alive
      modifies queue`pendings, queue`pendingpri, queue`due, queue`log, w`pending
      ensures Valid() && queue.due == old(queue.due)[w := GONE]
      ensures queue.log == old(queue.log) + [P.Cleared(w), P.Fed(w, GONE)]
    {
      ClearedAndFed(queue.due, w);
      Clear(w);
      Feed(w, GONE);
    }

    /** The same for the watcher at k, when those in front of it have had theirs. */
    method FeedGoneAt(list: seq<Watcher>, k: nat, ghost next: nat, ghost d: P.Table)
      requires Valid() && next == k + 1 <= |list|
      requires list[k] in queue.alive && queue.due == GoneTable(d, list, k)
      modifies queue`pendings, queue`pendingpri, queue`due, queue`log, {list[k]}`pending
      ensures Valid() && queue.due == GoneTable(d, list, next)
    {
      FeedGone(list[k]);
    }

    /** The same for every watcher of the list, in order. */
    method FeedKilled(list: seq<Watcher>)
      requires Valid()
      requires forall k {:trigger list[k]} :: 0 <= k < |list| ==> list[k] in queue.alive
      modifies queue`pendings, queue`pendingpri, queue`due, queue`log, list`pending
      ensures Valid() && queue.due == GoneTable(old(queue.due), list, |list|)
    {
      var k := 0;
      while k < |list|
        invariant k <= |list| && Valid() && queue.due == GoneTable(old(queue.due), list, k)
      {
        var next := k + 1;
        FeedGoneAt(list, k, next, old(queue.due));
        k := next;
      }
    }

    /** What fd_reify does to the table: the list of changes is done, every mask is right, and
        every watcher is started still but for those killed, whose fds cannot be used. */
    twostate predicate Reified()
      reads loop
    {
      && loop.fdchanges == []
      && (forall fd {:trigger loop.anfds[fd]} :: 0 <= fd < |loop.anfds| ==>
        loop.anfds[fd].reify == {} && loop.anfds[fd].events == F.Union(loop.anfds[fd].list))
      && (forall w {:trigger w in old(loop.started)} :: w in old(loop.started) ==>
        w in loop.started || w in loop.killed)
      && (forall w {:trigger w in loop.killed} :: w in loop.killed ==>
        w in old(loop.started) && w !in loop.started && (old(loop.started)[w] !in loop.files || loop.full))
    }

    /** fd_reify.  The watchers of an fd that cannot be used are stopped, and then an error is
        due of each, and nothing else; of no other watcher anything changes. */
    method FdReify()
      requires Valid()
      modifies loop`anfds, loop`started, loop`fdchanges, loop`killed, loop`kernel, loop`eperms, loop`stale
      modifies queue`pendings, queue`pendingpri, queue`due, queue`log, queue.alive`pending
      ensures Valid() && Reified()
      ensures queue.due == GoneTable(old(queue.due), loop.killed, |loop.killed|)
    {
      ReifyBeside();
      var list := loop.killed;
      FeedKilled(list);
    }

    /** fd_reify on the table, beside the queue. */
    method ReifyBeside()
      requires Valid()
      modifies loop`anfds, loop`started, loop`fdchanges, loop`killed, loop`kernel, loop`eperms, loop`stale
      ensures Valid() && Reified()
      ensures forall k {:trigger loop.killed[k]} :: 0 <= k < |loop.killed| ==> loop.killed[k] in queue.alive
    {
      loop.FdReify();
      assert forall w {:trigger w in loop.started} :: w in loop.started ==> w in old(loop.started);
      assert forall k {:trigger loop.killed[k]} :: 0 <= k < |loop.killed| ==> loop.killed[k] in loop.killed;
    }

    /** epoll_poll.  Just what the table's half says is fed, to started watchers, and nothing is
        cleared or called. */
    method Poll(events: seq<F.Report>) returns (list: seq<F.Entry>)
      requires Valid() && F.InTable(loop.Seen(), events)
      modifies loop`anfds, loop`kernel, loop`postfork, loop`fed, loop`eperms
      modifies queue`pendings, queue`pendingpri, queue`due, queue`log, queue.alive`pending
      ensures Valid() && list == old(loop.Polled(events))
      ensures queue.log == old(queue.log) + FedLog(list, |list|)
      ensures forall k {:trigger list[k]} :: 0 <= k < |list| ==> list[k].w in loop.started
    {
      list := PollBeside(events);
      FeedAll(list);
    }

    /** epoll_poll on the table, beside the queue. */
    method PollBeside(events: seq<F.Report>) returns (list: seq<F.Entry>)
      requires Valid() && F.InTable(loop.Seen(), events)
      modifies loop`anfds, loop`kernel, loop`postfork, loop`fed, loop`eperms
      ensures Valid() && list == old(loop.Polled(events))
      ensures forall k {:trigger list[k]} :: 0 <= k < |list| ==> list[k].w in queue.alive && list[k].w in loop.started
    {
      var n := |loop.fed|;
      loop.EpollPoll(events);
      list := loop.fed[n..];
      Behind(old(loop.fed), old(loop.Polled(events)));
      assert forall k {:trigger list[k]} :: 0 <= k < |list| ==> list[k] == loop.fed[n + k];
    }

    /** One of the feeds. */
    method FeedEntry(list: seq<F.Entry>, k: nat, ghost n: nat, ghost was: seq<P.Entry>)
      requires Valid() && n == k + 1 <= |list| && queue.log == was + FedLog(list, k)
      requires list[k].w in queue.alive
      modifies queue`pendings, queue`pendingpri, queue`due, queue`log, {list[k].w}`pending
      ensures Valid() && queue.log == was + FedLog(list, n)
    {
      Joined(was, FedLog(list, k), P.Fed(list[k].w, Bits(list[k].events)));
      Feed(list[k].w, Bits(list[k].events));
    }

    /** The feeds of epoll_poll, in order. */
    method FeedAll(list: seq<F.Entry>)
      requires Valid()
      requires forall k {:trigger list[k]} :: 0 <= k < |list| ==> list[k].w in queue.alive
      modifies queue`pendings, queue`pendingpri, queue`due, queue`log, queue.alive`pending
      ensures Valid() && queue.log == old(queue.log) + FedLog(list, |list|)
    {
      for k := 0 to |list|
        invariant Valid() && queue.log == old(queue.log) + FedLog(list, k)
      {
        FeedEntry(list, k, k + 1, old(queue.log));
      }
    }
  }
}
