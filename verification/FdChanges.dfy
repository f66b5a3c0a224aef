/** libev's deferred list of changed file descriptors and the epoll backend it is pushed
    to, with a model of the kernel's side of epoll_ctl and of close and open. */
module FdChanges {
  import opened Watchers

  datatype Rw = R | W

  type Mask = set<Rw>

  /** A started io watcher and the mask it was started with. */
  datatype Entry = Entry(w: Watcher, events: Mask)

  /** EV_ANFD_REIFY and EV__IOFDSET */
  datatype Flag = Reify | Fdset

  /** What libev believes the kernel has: a mask, or the mark EV_EMASK_EPERM. */
  datatype Emask = Cached(mask: Mask) | Eperm

  datatype Anfd = Anfd(list: seq<Entry>, events: Mask, reify: set<Flag>, emask: Emask, egen: nat)

  const ZEROED := Anfd([], {}, {}, Cached({}), 0)

  const GENERATIONS := 0x1_0000_0000

  function Next(gen: nat): nat { (gen + 1) % GENERATIONS }

  function Previous(gen: nat): nat { if gen == 0 then GENERATIONS - 1 else gen - 1 }

  /** The generation after n more registrations. */
  function Later(gen: nat, n: nat): nat {
    if n == 0 then gen else Next(Later(gen, n - 1))
  }

  /** It is another one until 2 to the 32 registrations have been made, and a registration
      that was not made after all is taken back. */
  lemma {:induction false} LaterIs(gen: nat, n: nat)
    requires gen < 0x1_0000_0000 && n < 0x1_0000_0000
    ensures Later(gen, n) == if gen + n < 0x1_0000_0000 then gen + n else gen + n - 0x1_0000_0000
    ensures n > 0 ==> Later(gen, n) != gen
    ensures n > 0 ==> Previous(Later(gen, n)) == Later(gen, n - 1)
    decreases n
  {
    if n > 0 {
      LaterIs(gen, n - 1);
    }
  }

  /** The union of the masks of a watcher list. */
  function Union(list: seq<Entry>): Mask {
    if list == [] then {} else list[0].events + Union(list[1..])
  }

  /** Every mask is in the union, and nothing else is. */
  lemma {:induction false} UnionIs(list: seq<Entry>, b: Rw)
    ensures b in Union(list) <==> exists k :: 0 <= k < |list| && b in list[k].events
    decreases |list|
  {
    if list != [] {
      UnionIs(list[1..], b);
      assert forall k :: 0 < k < |list| ==> list[k] == list[1..][k - 1];
      if b in Union(list[1..]) {
        var k :| 0 <= k < |list| - 1 && b in list[1..][k].events;
        assert list[k + 1] == list[1..][k];
      }
    }
  }

  /** The watchers of a list. */
  ghost function Members(list: seq<Entry>): set<Watcher> {
    if list == [] then {} else {list[0].w} + Members(list[1..])
  }

  lemma {:induction false} MembersIs(list: seq<Entry>, w: Watcher)
    ensures w in Members(list) <==> exists k :: 0 <= k < |list| && list[k].w == w
    decreases |list|
  {
    if list != [] {
      MembersIs(list[1..], w);
      assert forall k {:trigger list[k]} :: 0 < k < |list| ==> list[k] == list[1..][k - 1];
      if w in Members(list[1..]) {
        var k :| 0 <= k < |list| - 1 && list[1..][k].w == w;
        assert list[k + 1].w == w;
      }
    }
  }

  /** wlist_del: without the first entry of w. */
  function Without(list: seq<Entry>, w: Watcher): seq<Entry> {
    if list == [] then [] else if list[0].w == w then list[1..] else [list[0]] + Without(list[1..], w)
  }

  /** Of a list without repetitions just the entry of w goes. */
  lemma {:induction false} WithoutIs(list: seq<Entry>, w: Watcher)
    requires forall j, k {:trigger list[j], list[k]} :: 0 <= j < k < |list| ==> list[j].w != list[k].w
    ensures forall k {:trigger Without(list, w)[k]} :: 0 <= k < |Without(list, w)| ==>
      Without(list, w)[k].w != w && Without(list, w)[k] in list
    ensures forall j, k {:trigger Without(list, w)[j], Without(list, w)[k]} :: 0 <= j < k < |Without(list, w)| ==>
      Without(list, w)[j].w != Without(list, w)[k].w
    ensures forall e {:trigger e in list} :: e in list && e.w != w ==> e in Without(list, w)
    decreases |list|
  {
    if list != [] && list[0].w != w {
      WithoutIs(list[1..], w);
      var r := Without(list[1..], w);
      assert forall k {:trigger r[k]} :: 0 <= k < |r| ==> r[k] in list[1..];
      assert forall e {:trigger e in list} :: e in list ==> e == list[0] || e in list[1..];
      forall k | 0 <= k < |r| ensures r[k].w != list[0].w {
        var j :| 0 <= j < |list| - 1 && list[1..][j] == r[k];
        assert list[j + 1] == r[k];
      }
    }
  }

  lemma {:induction false} MembersWithout(list: seq<Entry>, w: Watcher)
    ensures Members(Without(list, w)) >= Members(list) - {w}
    decreases |list|
  {
    if list != [] && list[0].w != w {
      MembersWithout(list[1..], w);
      assert ([list[0]] + Without(list[1..], w))[1..] == Without(list[1..], w);
    }
  }

  /** fd_kill emptied the list, and fd_reify has not come to the fd since. */
  predicate Killed(a: Anfd) {
    a.list == [] && a.events != {} && a.reify != {}
  }

  /** Epoll cannot handle the fd, and somebody waits for it. */
  predicate AlwaysReady(a: Anfd) {
    a.emask == Eperm && a.events != {}
  }

  function WatchersOf(list: seq<Entry>): seq<Watcher> {
    if list == [] then [] else [list[0].w] + WatchersOf(list[1..])
  }

  lemma KilledSoFar(killed: seq<Watcher>, list: seq<Entry>)
    requires list != []
    ensures killed + [list[0].w] + WatchersOf(list[1..]) == killed + WatchersOf(list)
  {
  }

  /** How often fd is on the list from the i-th on. */
  function Count(s: seq<nat>, i: nat, fd: nat): nat
    requires i <= |s|
    decreases |s| - i
  {
    if i == |s| then 0 else (if s[i] == fd then 1 else 0) + Count(s, i + 1, fd)
  }

  lemma {:induction false} CountAppended(s: seq<nat>, i: nat, x: nat)
    requires i <= |s|
    ensures forall fd {:trigger Count(s + [x], i, fd)} ::
      Count(s + [x], i, fd) == Count(s, i, fd) + if fd == x then 1 else 0
    decreases |s| - i
  {
    if i < |s| {
      CountAppended(s, i + 1, x);
    }
  }

  lemma {:induction false} CountAbsent(s: seq<nat>, i: nat, n: nat)
    requires i <= |s| && forall j {:trigger s[j]} :: i <= j < |s| ==> s[j] < n
    ensures forall fd {:trigger Count(s, i, fd)} :: n <= fd ==> Count(s, i, fd) == 0
    decreases |s| - i
  {
    if i < |s| {
      CountAbsent(s, i + 1, n);
    }
  }

  // ----- the kernel

  datatype Op = Add | Mod | Del

  datatype Errno = Ok | EBADF | EPERM | EEXIST | ENOENT | ENOSPC

  /** An entry of the epoll set: the mask, and the generation stored beside the fd. */
  datatype Reg = Reg(mask: Mask, gen: nat)

  function CtlError(files: map<nat, bool>, kernel: map<nat, Reg>, full: bool, op: Op, fd: nat): Errno {
    if fd !in files then EBADF
    else if !files[fd] then EPERM
    else if op == Add then if fd in kernel then EEXIST else if full then ENOSPC else Ok
    else if fd in kernel then Ok else ENOENT
  }

  /** The bits epoll_wait reports. */
  datatype Bit = EPOLLIN | EPOLLOUT | EPOLLERR | EPOLLHUP

  /** An event from epoll_wait: the data stored with the registration, and its bits. */
  datatype Report = Report(fd: nat, gen: nat, bits: set<Bit>)

  lemma Shares(bits: set<Bit>)
    ensures bits * {EPOLLOUT, EPOLLERR, EPOLLHUP} != {} <==> EPOLLOUT in bits || EPOLLERR in bits || EPOLLHUP in bits
    ensures bits * {EPOLLIN, EPOLLERR, EPOLLHUP} != {} <==> EPOLLIN in bits || EPOLLERR in bits || EPOLLHUP in bits
  {
    var out, inp := bits * {EPOLLOUT, EPOLLERR, EPOLLHUP}, bits * {EPOLLIN, EPOLLERR, EPOLLHUP};
    if out != {} {
      var x :| x in out;
    }
    if inp != {} {
      var x :| x in inp;
    }
    assert forall x :: x in out <==> x in bits && x != EPOLLIN;
    assert forall x :: x in inp <==> x in bits && x != EPOLLOUT;
  }

  /** Some bit says that b is possible: an error or a hangup says so of both. */
  predicate Says(bits: set<Bit>, b: Rw) {
    EPOLLERR in bits || EPOLLHUP in bits || (if b == R then EPOLLIN else EPOLLOUT) in bits
  }

  function Got(bits: set<Bit>): (got: Mask)
    ensures (R in got <==> Says(bits, R)) && (W in got <==> Says(bits, W))
  {
    Shares(bits);
    (if bits * {EPOLLOUT, EPOLLERR, EPOLLHUP} != {} then {W} else {})
    + if bits * {EPOLLIN, EPOLLERR, EPOLLHUP} != {} then {R} else {}
  }

  /** What an event on an fd feeds: to each watcher, in turn, the part it waits for. */
  function Matching(list: seq<Entry>, revents: Mask): seq<Entry> {
    if list == [] then [] else
      (if list[0].events * revents != {} then [Entry(list[0].w, list[0].events * revents)] else [])
      + Matching(list[1..], revents)
  }

  /** Just the watchers of the list are fed that wait for something of it, each the part it
      waits for. */
  lemma {:induction false} MatchingIs(list: seq<Entry>, revents: Mask)
    ensures forall e {:trigger e in Matching(list, revents)} ::
      e in Matching(list, revents) <==> Matched(list, revents, e)
    decreases |list|
  {
    if list != [] {
      MatchingIs(list[1..], revents);
      forall e ensures e in Matching(list, revents) <==> Matched(list, revents, e) {
        if Matched(list[1..], revents, e) {
          var k :| 0 <= k < |list| - 1 && e == Entry(list[1..][k].w, list[1..][k].events * revents);
          assert list[k + 1] == list[1..][k];
        }
        assert forall k {:trigger list[k]} :: 0 < k < |list| ==> list[k] == list[1..][k - 1];
      }
    }
  }

  /** e is for a watcher of the list and has the part of revents that it waits for. */
  ghost predicate Matched(list: seq<Entry>, revents: Mask, e: Entry) {
    e.events != {} && exists k :: 0 <= k < |list| && e == Entry(list[k].w, list[k].events * revents)
  }

  // ----- what a poll delivers

  /** What epoll_poll goes by: the table, and the fds that the kernel watches. */
  datatype View = View(anfds: seq<Anfd>, known: set<nat>)

  predicate InTable(v: View, events: seq<Report>) {
    forall k {:trigger events[k]} :: 0 <= k < |events| ==> events[k].fd < |v.anfds|
  }

  /** An event of an earlier generation, or one that nobody wants and for which the kernel
      has no registration to correct. */
  predicate Spurious(v: View, ev: Report)
    requires ev.fd < |v.anfds|
  {
    v.anfds[ev.fd].egen != ev.gen || (!(Got(ev.bits) <= v.anfds[ev.fd].events) && ev.fd !in v.known)
  }

  /** What one event feeds. */
  function Delivery(v: View, ev: Report): seq<Entry>
    requires ev.fd < |v.anfds|
  {
    if Spurious(v, ev) || v.anfds[ev.fd].reify != {} then [] else Matching(v.anfds[ev.fd].list, Got(ev.bits))
  }

  /** What one event leaves: when it is unwanted the kernel is told the mask once more, and
      drops the fd if there is none. */
  function Past(v: View, ev: Report): (u: View)
    requires ev.fd < |v.anfds|
    ensures |u.anfds| == |v.anfds|
  {
    var a := v.anfds[ev.fd];
    if a.egen != ev.gen || Got(ev.bits) <= a.events then v
    else View(v.anfds[ev.fd := a.(emask := Cached(a.events))], if a.events == {} then v.known - {ev.fd} else v.known)
  }

  function Deliveries(v: View, events: seq<Report>): seq<Entry>
    requires InTable(v, events)
    decreases |events|
  {
    if events == [] then [] else Delivery(v, events[0]) + Deliveries(Past(v, events[0]), events[1..])
  }

  function PastAll(v: View, events: seq<Report>): (u: View)
    requires InTable(v, events)
    ensures |u.anfds| == |v.anfds|
    decreases |events|
  {
    if events == [] then v else PastAll(Past(v, events[0]), events[1..])
  }

  /** A later event on another fd is not affected. */
  lemma PastElsewhere(v: View, ev: Report, events: seq<Report>)
    requires ev.fd < |v.anfds| && InTable(v, events)
    requires forall k {:trigger events[k]} :: 0 <= k < |events| ==> events[k].fd != ev.fd
    ensures forall k {:trigger events[k]} :: 0 <= k < |events| ==>
      Delivery(Past(v, ev), events[k]) == Delivery(v, events[k])
  {
    forall k | 0 <= k < |events| ensures Delivery(Past(v, ev), events[k]) == Delivery(v, events[k]) {
      var x := events[k].fd;
      assert x != ev.fd && Past(v, ev).anfds[x] == v.anfds[x];
    }
  }

  /** When the kernel reports no fd twice, which is what it promises, each event is as good
      as if it came alone: what is fed is what they feed of themselves. */
  lemma {:induction false} EachOnItsOwn(v: View, events: seq<Report>, e: Entry)
    requires InTable(v, events)
    requires forall j, k {:trigger events[j], events[k]} :: 0 <= j < k < |events| ==> events[j].fd != events[k].fd
    ensures e in Deliveries(v, events) <==> exists k :: 0 <= k < |events| && e in Delivery(v, events[k])
    decreases |events|
  {
    if events != [] {
      var rest, u := events[1..], Past(v, events[0]);
      assert forall k {:trigger rest[k]} :: 0 <= k < |rest| ==> rest[k] == events[k + 1];
      EachOnItsOwn(u, rest, e);
      PastElsewhere(v, events[0], rest);
      assert forall k {:trigger events[k]} :: 0 < k < |events| ==> events[k] == rest[k - 1];
    }
  }

  /** An event of the present generation that somebody waits for in all it says, or that the
      kernel knows how to correct. */
  ghost predicate Genuine(v: View, ev: Report)
    requires ev.fd < |v.anfds|
  {
    && v.anfds[ev.fd].egen == ev.gen
    && (ev.fd in v.known || (
      && (Says(ev.bits, R) ==> R in v.anfds[ev.fd].events)
      && (Says(ev.bits, W) ==> W in v.anfds[ev.fd].events)))
  }

  lemma GenuineIs(v: View, ev: Report)
    requires ev.fd < |v.anfds|
    ensures Genuine(v, ev) <==> !Spurious(v, ev)
  {
    assert forall b :: b in Got(ev.bits) <==> (if b == R then Says(ev.bits, R) else Says(ev.bits, W));
  }

  /** e is for the watcher of l, and has of what it waits for just what the bits say. */
  predicate Part(e: Entry, l: Entry, bits: set<Bit>) {
    && e.w == l.w
    && (R in e.events <==> R in l.events && Says(bits, R))
    && (W in e.events <==> W in l.events && Says(bits, W))
  }

  lemma PartIs(e: Entry, l: Entry, bits: set<Bit>)
    ensures e == Entry(l.w, l.events * Got(bits)) <==> Part(e, l, bits)
  {
    if Part(e, l, bits) {
      forall b ensures b in e.events <==> b in l.events * Got(bits) {
        if b == R {} else { assert b == W; }
      }
    }
  }

  /** The event delivers e: no change of its fd is on the list, it is genuine, and e is for a
      watcher of the fd. */
  ghost predicate Delivers(v: View, ev: Report, e: Entry)
    requires ev.fd < |v.anfds|
  {
    && e.events != {} && Genuine(v, ev) && v.anfds[ev.fd].reify == {}
    && exists i :: 0 <= i < |v.anfds[ev.fd].list| && Part(e, v.anfds[ev.fd].list[i], ev.bits)
  }

  lemma DeliversIs(v: View, ev: Report, e: Entry)
    requires ev.fd < |v.anfds|
    ensures e in Delivery(v, ev) <==> Delivers(v, ev, e)
  {
    var list := v.anfds[ev.fd].list;
    GenuineIs(v, ev);
    MatchingIs(list, Got(ev.bits));
    forall i | 0 <= i < |list| {
      PartIs(e, list[i], ev.bits);
    }
  }

  /** So a watcher is fed reading just if it waits for that and some genuine event says it,
      and writing likewise. */
  lemma FedExactly(v: View, events: seq<Report>, e: Entry)
    requires InTable(v, events)
    requires forall j, k {:trigger events[j], events[k]} :: 0 <= j < k < |events| ==> events[j].fd != events[k].fd
    ensures e in Deliveries(v, events) <==> exists k :: 0 <= k < |events| && Delivers(v, events[k], e)
  {
    EachOnItsOwn(v, events, e);
    forall k | 0 <= k < |events| {
      DeliversIs(v, events[k], e);
    }
  }

  /** An event of a registration from n registrations before feeds nobody. */
  lemma OutdatedFeedsNobody(v: View, ev: Report, n: nat)
    requires ev.fd < |v.anfds| && ev.gen < 0x1_0000_0000 && 0 < n < 0x1_0000_0000
    requires v.anfds[ev.fd].egen == Later(ev.gen, n)
    ensures Spurious(v, ev) && Delivery(v, ev) == []
  {
    LaterIs(ev.gen, n);
  }

  /** What is fed for an fd that epoll cannot handle. */
  function Synthesized(a: Anfd): seq<Entry> {
    if AlwaysReady(a) && a.reify == {} then Matching(a.list, a.events) else []
  }

  /** What is fed for the first n of the list of these, from the back. */
  function SynthesizedBelow(anfds: seq<Anfd>, eperms: seq<nat>, n: nat): seq<Entry>
    requires n <= |eperms| && forall j {:trigger eperms[j]} :: 0 <= j < |eperms| ==> eperms[j] < |anfds|
  {
    if n == 0 then [] else Synthesized(anfds[eperms[n - 1]]) + SynthesizedBelow(anfds, eperms, n - 1)
  }

  /** e is for a watcher of an fd that epoll cannot handle, and is all that it waits for. */
  ghost predicate MadeUp(a: Anfd, e: Entry) {
    AlwaysReady(a) && a.reify == {} && Matched(a.list, a.events, e)
  }

  lemma SynthesizedNext(anfds: seq<Anfd>, eperms: seq<nat>, n: nat, m: nat, e: Entry)
    requires n == m + 1 <= |eperms| && forall j {:trigger eperms[j]} :: 0 <= j < |eperms| ==> eperms[j] < |anfds|
    ensures e in SynthesizedBelow(anfds, eperms, n)
       <==> e in SynthesizedBelow(anfds, eperms, m) || MadeUp(anfds[eperms[m]], e)
  {
    var a := anfds[eperms[m]];
    MatchingIs(a.list, a.events);
    assert e in Synthesized(a) <==> MadeUp(a, e);
    InEither(Synthesized(a), SynthesizedBelow(anfds, eperms, m), e);
  }

  /** Just these are fed, for all the fds of the list. */
  lemma {:induction false} SynthesizedIs(anfds: seq<Anfd>, eperms: seq<nat>, n: nat, e: Entry)
    requires n <= |eperms| && forall j {:trigger eperms[j]} :: 0 <= j < |eperms| ==> eperms[j] < |anfds|
    ensures e in SynthesizedBelow(anfds, eperms, n) <==> exists j :: 0 <= j < n && MadeUp(anfds[eperms[j]], e)
    decreases n
  {
    if n > 0 {
      var m := n - 1;
      SynthesizedNext(anfds, eperms, n, m, e);
      SynthesizedIs(anfds, eperms, m, e);
    }
  }

  lemma InEither(a: seq<Entry>, b: seq<Entry>, e: Entry)
    ensures e in a + b <==> e in a || e in b
  {
  }

  lemma Regroup(a: seq<Entry>, b: seq<Entry>, c: seq<Entry>)
    ensures (a + b) + c == a + (b + c)
  {
  }

  /** Where the walk over the list of these has come to, from a0 and e0 to a and e: the first
      i are still to be looked at.  Of the others just those stay that are always ready. */
  ghost predicate Walked(a0: seq<Anfd>, e0: seq<nat>, a: seq<Anfd>, e: seq<nat>, i: nat) {
    && (forall j {:trigger e0[j]} :: 0 <= j < |e0| ==> e0[j] < |a0|)
    && i <= |e| && i <= |e0| && e[..i] == e0[..i]
    && |a| == |a0| && (forall fd {:trigger a[fd]} :: 0 <= fd < |a| ==>
      a[fd] == a0[fd] || (!AlwaysReady(a0[fd]) && a[fd] == a0[fd].(emask := Cached({}))))
    && (forall j {:trigger e[j]} :: i <= j < |e| ==> e[j] in e0 && AlwaysReady(a0[e[j]]))
    && (forall j {:trigger e0[j]} :: 0 <= j < |e0| && AlwaysReady(a0[e0[j]]) ==> e0[j] in e)
  }

  lemma WalkKeeps(a0: seq<Anfd>, e0: seq<nat>, a: seq<Anfd>, e: seq<nat>, n: nat, i: nat)
    requires n == i + 1 && Walked(a0, e0, a, e, n) && AlwaysReady(a[e[i]])
    ensures Walked(a0, e0, a, e, i)
  {
    assert e[..n][i] == e0[..n][i];
    assert e[..i] == e[..n][..i] && e0[..i] == e0[..n][..i];
  }

  lemma WalkDrops(a0: seq<Anfd>, e0: seq<nat>, a: seq<Anfd>, e: seq<nat>, n: nat, i: nat, b: seq<Anfd>, f: seq<nat>)
    requires n == i + 1 && Walked(a0, e0, a, e, n) && !AlwaysReady(a[e[i]])
    requires b == a[e[i] := a[e[i]].(emask := Cached({}))]
    requires |f| == |e| - 1 && forall j {:trigger f[j]} :: 0 <= j < |f| ==> f[j] == e[if j == i then |f| else j]
    ensures Walked(a0, e0, b, f, i)
  {
    assert e[..n][i] == e0[..n][i];
    assert e[..i] == e[..n][..i] && e0[..i] == e0[..n][..i];
    assert f[..i] == e[..i];
    forall j | 0 <= j < |e0| && AlwaysReady(a0[e0[j]]) ensures e0[j] in f {
      var k :| 0 <= k < |e| && e[k] == e0[j];
      assert k != i;
      assert f[if k == |f| then i else k] == e[k];
    }
  }

  /** How the system calls of epoll_modify end: done, or nothing was to be done, or the fd
      is unusable. */
  datatype Outcome = Done | Kept | Failed

  class EpollLoop {
    var anfds: seq<Anfd>
    var started: map<Watcher, nat>   // the fds of the started watchers
    var fdchanges: seq<nat>
    var eperms: seq<nat>
    var postfork: bool
    var fed: seq<Entry>              // the events fed so far
    var killed: seq<Watcher>         // the watchers fed an error by the last fd_reify
    var kernel: map<nat, Reg>        // the epoll set
    var files: map<nat, bool>        // the open fds; whether epoll can handle them
    var full: bool                   // the kernel takes no more registrations
    ghost var stale: set<nat>        // fds closed while the kernel should have had them

    /** From the i-th on, fdchanges has exactly the fds with a reify flag, each once. */
    ghost predicate Counts(i: nat)
      reads `anfds, `fdchanges
    {
      && i <= |fdchanges|
      && (forall j {:trigger fdchanges[j]} :: i <= j < |fdchanges| ==> fdchanges[j] < |anfds|)
      && (forall fd {:trigger anfds[fd]} :: 0 <= fd < |anfds| ==>
        Count(fdchanges, i, fd) == if anfds[fd].reify != {} then 1 else 0)
    }

    /** The mask of every fd without a reify flag, f aside, is the union of its watchers' masks. */
    ghost predicate MasksBut(f: int)
      reads `anfds
    {
      forall fd {:trigger anfds[fd]} :: 0 <= fd < |anfds| && fd != f && anfds[fd].reify == {} ==>
        anfds[fd].events == Union(anfds[fd].list)
    }

    ghost predicate Listed(i: nat)
      reads `anfds, `fdchanges
    {
      Counts(i) && MasksBut(-1)
    }

    /** A watcher is on the list of its fd if it is started, and on no other. */
    ghost predicate Lists()
      reads `anfds, `started
    {
      && (forall fd, k {:trigger anfds[fd].list[k]} :: 0 <= fd < |anfds| && 0 <= k < |anfds[fd].list| ==>
        anfds[fd].list[k].w in started && started[anfds[fd].list[k].w] == fd)
      && (forall fd, j, k {:trigger anfds[fd].list[j], anfds[fd].list[k]} ::
        0 <= fd < |anfds| && 0 <= j < k < |anfds[fd].list| ==> anfds[fd].list[j].w != anfds[fd].list[k].w)
      && (forall w {:trigger w in started} :: w in started ==> started[w] < |anfds|)
      && (forall w {:trigger Members(anfds[started[w]].list)} :: w in started ==>
        w in Members(anfds[started[w]].list))
    }

    /** The cache never believes the kernel to have what it has not: a registration has
        the generation of the fd, and the mask that is cached unless the cache was reset. */
    ghost predicate Believes(fd: nat)
      requires fd < |anfds|
      reads `anfds, `kernel, `files, `eperms, `stale
    {
      var a := anfds[fd];
      && a.egen < GENERATIONS
      && (fd in kernel ==> fd in files && files[fd] && fd !in stale)
      && (fd in kernel ==> kernel[fd].gen == a.egen && (a.emask == Cached(kernel[fd].mask) || a.emask == Cached({})))
      && (a.emask == Eperm ==> fd in eperms)
    }

    /** The kernel watches fd for its mask, or fd is open but not for epoll and is treated
        as always ready. */
    ghost predicate Watched(fd: nat)
      requires fd < |anfds|
      reads `anfds, `kernel, `files
    {
      if anfds[fd].emask == Eperm then fd in files && !files[fd]
      else fd in kernel && kernel[fd].mask == anfds[fd].events
    }

    /** With postfork set the kernel's state is going to be built anew. */
    ghost predicate Serves(fd: nat)
      requires fd < |anfds|
      reads `anfds, `kernel, `files, `stale, `postfork
    {
      anfds[fd].events != {} && Fdset !in anfds[fd].reify && fd !in stale && !postfork ==> Watched(fd)
    }

    ghost predicate Cache()
      reads `anfds, `kernel, `files, `eperms, `stale, `postfork
    {
      && (forall j {:trigger eperms[j]} :: 0 <= j < |eperms| ==> eperms[j] < |anfds|)
      && (forall fd {:trigger anfds[fd]} {:trigger Believes(fd)} :: 0 <= fd < |anfds| ==> Believes(fd) && Serves(fd))
      && (forall fd {:trigger fd in kernel} :: fd in kernel ==> fd < |anfds|)
    }

    /** The invariant but for the mask of one fd, which the kernel has not been told yet. */
    ghost predicate CacheBut(f: nat)
      reads `anfds, `kernel, `files, `eperms, `stale, `postfork
    {
      && (forall j {:trigger eperms[j]} :: 0 <= j < |eperms| ==> eperms[j] < |anfds|)
      && (forall fd {:trigger anfds[fd]} {:trigger Believes(fd)} :: 0 <= fd < |anfds| ==>
        Believes(fd) && (fd != f ==> Serves(fd)))
      && (forall fd {:trigger fd in kernel} :: fd in kernel ==> fd < |anfds|)
    }

    ghost predicate Valid()
      reads this
    {
      Listed(0) && Lists() && Cache()
    }

    constructor ()
      ensures Valid() && anfds == [] && started == map[] && fdchanges == [] && stale == {}
    {
      anfds, started, fdchanges, eperms, postfork, fed, killed := [], map[], [], [], false, [], [];
      kernel, files, full, stale := map[], map[], false, {};
    }

    /** fd_change */
    method FdChange(fd: nat, flags: set<Flag>, ghost i: nat)
      requires Counts(i) && MasksBut(fd) && fd < |anfds| && flags != {}
      modifies `anfds, `fdchanges
      ensures Listed(i) && anfds == old(anfds[fd := anfds[fd].(reify := anfds[fd].reify + flags)])
      ensures fdchanges == if old(anfds[fd].reify) == {} then old(fdchanges) + [fd] else old(fdchanges)
    {
      var reify := anfds[fd].reify;
      anfds := anfds[fd := anfds[fd].(reify := reify + flags)];
      if reify == {} {
        CountAppended(fdchanges, i, fd);
        fdchanges := fdchanges + [fd];
      }
    }

    /** epoll_ctl */
    method Ctl(op: Op, fd: nat, reg: Reg) returns (e: Errno)
      modifies `kernel
      ensures e == CtlError(files, old(kernel), full, op, fd)
      ensures kernel == if e != Ok then old(kernel)
        else if op == Del then old(kernel) - {fd} else old(kernel)[fd := reg]
    {
      e := CtlError(files, kernel, full, op, fd);
      if e == Ok {
        kernel := if op == Del then kernel - {fd} else kernel[fd := reg];
      }
    }

    /** The system calls of epoll_modify, with the errors it handles. */
    method Register(fd: nat, oev: Mask, nev: Mask, oldmask: Emask) returns (outcome: Outcome)
      requires fd < |anfds| && nev != {} && anfds[fd].emask == Cached(nev)
      requires fd in kernel ==> oldmask == Cached(kernel[fd].mask) || oldmask == Cached({})
      requires oldmask == Eperm ==> fd in eperms
      modifies `anfds, `kernel, `eperms
      ensures outcome == Done ==> fd in files && (if files[fd]
        then anfds == old(anfds) && kernel == old(kernel)[fd := Reg(nev, anfds[fd].egen)]
        else anfds == old(anfds[fd := anfds[fd].(emask := Eperm)]) && kernel == old(kernel) && fd in eperms)
      ensures outcome != Done ==> anfds == old(anfds) && kernel == old(kernel)
      ensures outcome == Kept ==> fd in kernel && kernel[fd].mask == nev
      ensures outcome == Failed ==> fd !in files || (files[fd] && fd !in kernel && full)
      ensures outcome != Done || files[fd] ==> eperms == old(eperms)
      ensures outcome == Done && !files[fd] ==> eperms == old(eperms) + if oldmask == Eperm then [] else [fd]
    {
      var reg := Reg(nev, anfds[fd].egen);
      outcome := Done;
      var e := Ctl(if oev != {} && oldmask != Cached(nev) then Mod else Add, fd, reg);
      if e == ENOENT {
        e := Ctl(Add, fd, reg);
        if e != Ok { outcome := Failed; }
      } else if e == EEXIST {
        if oldmask == Cached(nev) {
          outcome := Kept;
        } else {
          e := Ctl(Mod, fd, reg);
        }
      } else if e == EPERM {
        anfds := anfds[fd := anfds[fd].(emask := Eperm)];
        if oldmask != Eperm {
          eperms := eperms + [fd];
        }
      } else if e != Ok {
        outcome := Failed;
      }
    }

    /** What epoll knows is not touched by changes to watcher lists and reify flags; fds
        may leave `stale` when they get the flag Fdset. */
    twostate lemma CacheKept(n: nat)
      requires old(Cache()) && n == |old(anfds)| <= |anfds|
      requires kernel == old(kernel) && files == old(files) && eperms == old(eperms) && stale <= old(stale)
        && postfork == old(postfork)
      requires forall f {:trigger anfds[f]} :: n <= f < |anfds| ==> anfds[f] == ZEROED
      requires forall f {:trigger anfds[f]} :: 0 <= f < n ==>
        var a, b := old(anfds)[f], anfds[f];
        b.events == a.events && b.emask == a.emask && b.egen == a.egen && (Fdset in a.reify ==> Fdset in b.reify)
        && (f in old(stale) ==> f in stale || Fdset in b.reify)
      ensures Cache()
    {
      forall f | 0 <= f < |anfds| ensures Believes(f) && Serves(f) {
        if f < n {
          assert old(Believes(f)) && old(Serves(f));
          assert anfds[f].events == old(anfds)[f].events;
        } else {
          assert anfds[f] == ZEROED;
        }
      }
    }

    /** array_needsize of anfds, with array_init_zero. */
    method Grow(fd: nat)
      requires Valid()
      modifies `anfds
      ensures Valid() && fd < |anfds|
      ensures anfds == old(anfds) + seq(if fd < |old(anfds)| then 0 else fd + 1 - |old(anfds)|, _ => ZEROED)
    {
      var n := |anfds|;
      if fd >= n {
        anfds := anfds + seq(fd + 1 - n, _ => ZEROED);
        assert forall x {:trigger anfds[x]} :: n <= x < |anfds| ==> anfds[x] == ZEROED;
        CountAbsent(fdchanges, 0, n);
        CacheKept(n);
      } else {
        assert anfds + seq(0, _ => ZEROED) == anfds;
      }
    }

    /** Gives fd another watcher list. */
    method SetList(fd: nat, list: seq<Entry>, now: map<Watcher, nat>)
      requires Lists() && fd < |anfds|
      requires forall k {:trigger list[k]} :: 0 <= k < |list| ==> list[k].w in now && now[list[k].w] == fd
      requires forall j, k {:trigger list[j], list[k]} :: 0 <= j < k < |list| ==> list[j].w != list[k].w
      requires forall w {:trigger w in now} :: w in now ==>
        now[w] < |anfds| && if now[w] == fd then w in Members(list) else w in started && started[w] == now[w]
      requires forall w {:trigger w in started} :: w in started && started[w] != fd ==> w in now && now[w] == started[w]
      modifies `anfds, `started
      ensures Lists() && started == now && anfds == old(anfds)[fd := old(anfds)[fd].(list := list)]
    {
      ghost var a, s := anfds, started;
      anfds, started := anfds[fd := anfds[fd].(list := list)], now;
      forall w | w in now ensures w in Members(anfds[now[w]].list) {
        assert now[w] != fd ==> w in s && Members(a[s[w]].list) == Members(anfds[now[w]].list);
      }
    }

    /** ev_io_start, of a watcher whose fd and events are given; `fdset` says that they
        were set since it was last started. */
    method Start(w: Watcher, fd: nat, events: Mask, fdset: bool)
      requires Valid()
      modifies `anfds, `started, `fdchanges, `stale
      ensures Valid()
      ensures old(w in started) ==> anfds == old(anfds) && started == old(started) && stale == old(stale)
      ensures old(w !in started) ==> started == old(started)[w := fd] && fd < |anfds|
      ensures old(w !in started) ==>
        anfds[fd].list == [Entry(w, events)] + (if fd < |old(anfds)| then old(anfds)[fd].list else [])
      ensures old(w !in started) ==> Reify in anfds[fd].reify && (fdset ==> Fdset in anfds[fd].reify)
      ensures forall x {:trigger anfds[x]} :: 0 <= x < |old(anfds)| && x != fd ==>
        x < |anfds| && anfds[x] == old(anfds)[x]
      ensures old(w !in started) ==> stale == if fdset then old(stale) - {fd} else old(stale)
    {
      if w !in started {
        Grow(fd);
        AddEntry(w, fd, events, fdset);
      }
    }

    method AddEntry(w: Watcher, fd: nat, events: Mask, fdset: bool)
      requires Valid() && w !in started && fd < |anfds|
      modifies `anfds, `started, `fdchanges, `stale
      ensures Valid() && started == old(started)[w := fd]
      ensures stale == if fdset then old(stale) - {fd} else old(stale)
      ensures |anfds| == |old(anfds)| && anfds[fd].list == [Entry(w, events)] + old(anfds)[fd].list
      ensures anfds[fd].events == old(anfds)[fd].events
      ensures Reify in anfds[fd].reify && (fdset ==> Fdset in anfds[fd].reify)
      ensures forall x {:trigger anfds[x]} :: 0 <= x < |anfds| && x != fd ==> anfds[x] == old(anfds)[x]
    {
      Enlist(w, fd, events, if fdset then {Fdset, Reify} else {Reify});
      if fdset { stale := stale - {fd}; }
      CacheKept(|anfds|);
    }

    /** With an entry of w its list is still right. */
    lemma Joins(w: Watcher, fd: nat, events: Mask, list: seq<Entry>, now: map<Watcher, nat>)
      requires Lists() && w !in started && fd < |anfds|
      requires list == [Entry(w, events)] + anfds[fd].list && now == started[w := fd]
      ensures
        && (forall k {:trigger list[k]} :: 0 <= k < |list| ==> list[k].w in now && now[list[k].w] == fd)
        && (forall j, k {:trigger list[j], list[k]} :: 0 <= j < k < |list| ==> list[j].w != list[k].w)
        && (forall v {:trigger v in now} :: v in now ==>
          now[v] < |anfds| && if now[v] == fd then v in Members(list) else v in started && started[v] == now[v])
    {
      var rest := anfds[fd].list;
      assert list[1..] == rest;
      assert forall k {:trigger list[k]} :: 0 < k < |list| ==> list[k] == rest[k - 1];
    }

    /** The watcher joins the list of its fd, which is marked. */
    method Enlist(w: Watcher, fd: nat, events: Mask, flags: set<Flag>)
      requires Listed(0) && Lists() && w !in started && fd < |anfds| && flags != {}
      modifies `anfds, `started, `fdchanges
      ensures Listed(0) && Lists() && started == old(started)[w := fd]
      ensures anfds == old(anfds)[fd := old(anfds)[fd].(list := [Entry(w, events)] + old(anfds)[fd].list,
        reify := old(anfds)[fd].reify + flags)]
    {
      var list, now := [Entry(w, events)] + anfds[fd].list, started[w := fd];
      Joins(w, fd, events, list, now);
      SetList(fd, list, now);
      FdChange(fd, flags, 0);
    }

    /** ev_io_stop; the pending queue is not part of this class. */
    method Stop(w: Watcher, ghost i: nat)
      requires Listed(i) && Lists() && Cache()
      modifies `anfds, `started, `fdchanges
      ensures Listed(i) && Lists() && Cache() && started == old(started) - {w}
      ensures old(w !in started) ==> anfds == old(anfds) && fdchanges == old(fdchanges)
      ensures old(w in started) ==> var fd := old(started)[w];
        anfds == old(anfds)[fd := old(anfds)[fd].(list := Without(old(anfds)[fd].list, w),
          reify := old(anfds)[fd].reify + {Reify})]
        && fdchanges == old(fdchanges) + if old(anfds)[fd].reify == {} then [fd] else []
    {
      if w in started {
        Unlist(w, started[w], i);
        CacheKept(|anfds|);
      }
    }

    /** Without the entry of w its list is still right. */
    lemma Leaves(w: Watcher, fd: nat, list: seq<Entry>, now: map<Watcher, nat>)
      requires Lists() && w in started && fd == started[w]
      requires list == Without(anfds[fd].list, w) && now == started - {w}
      ensures
        && (forall k {:trigger list[k]} :: 0 <= k < |list| ==> list[k].w in now && now[list[k].w] == fd)
        && (forall j, k {:trigger list[j], list[k]} :: 0 <= j < k < |list| ==> list[j].w != list[k].w)
        && (forall v {:trigger v in now} :: v in now ==>
          now[v] < |anfds| && if now[v] == fd then v in Members(list) else v in started && started[v] == now[v])
        && (forall v {:trigger v in started} :: v in started && started[v] != fd ==> v in now && now[v] == started[v])
    {
      WithoutIs(anfds[fd].list, w);
      MembersWithout(anfds[fd].list, w);
    }

    /** The watcher leaves the list of its fd, which is marked. */
    method Unlist(w: Watcher, fd: nat, ghost i: nat)
      requires Listed(i) && Lists() && w in started && fd == started[w]
      modifies `anfds, `started, `fdchanges
      ensures Listed(i) && Lists() && started == old(started) - {w}
      ensures anfds == old(anfds)[fd := old(anfds)[fd].(list := Without(old(anfds)[fd].list, w),
        reify := old(anfds)[fd].reify + {Reify})]
      ensures fdchanges == old(fdchanges) + if old(anfds)[fd].reify == {} then [fd] else []
    {
      var list, now := Without(anfds[fd].list, w), started - {w};
      Leaves(w, fd, list, now);
      SetList(fd, list, now);
      FdChange(fd, {Reify}, i);
    }

    /** One round of fd_kill: stops the first watcher of fd and feeds it an error. */
    method KillHead(fd: nat, ghost i: nat)
      requires Listed(i) && Lists() && Cache() && fd < |anfds| && anfds[fd].list != []
      modifies `anfds, `started, `fdchanges, `killed
      ensures Listed(i) && Lists() && Cache() && |anfds| == |old(anfds)|
      ensures anfds == old(anfds)[fd := old(anfds)[fd].(list := old(anfds)[fd].list[1..],
        reify := old(anfds)[fd].reify + {Reify})]
      ensures |started| == |old(started)| - 1 && |old(fdchanges)| <= |fdchanges|
      ensures killed == old(killed) + [old(anfds)[fd].list[0].w]
      ensures started == old(started) - {old(anfds)[fd].list[0].w}
    {
      var w := anfds[fd].list[0].w;
      assert w in started;
      Stop(w, i);
      killed := killed + [w];
    }

    /** Watchers have been stopped and fed, if anything: each one that was started is
        started still, or was killed, and only those were. */
    twostate predicate Kills()
      reads `started, `killed
    {
      && old(killed) <= killed && |started| <= |old(started)|
      && (forall w {:trigger w in started} :: w in started ==> w in old(started) && started[w] == old(started)[w])
      && (forall w {:trigger w in old(started)} :: w in old(started) ==> w in started || w in killed)
      && (forall k {:trigger killed[k]} :: |old(killed)| <= k < |killed| ==>
        killed[k] in old(started) && killed[k] !in started)
    }

    /** Nothing has changed but for fd. */
    twostate predicate OnlyFd(fd: nat)
      reads `anfds
    {
      |anfds| == |old(anfds)| && forall x {:trigger anfds[x]} :: 0 <= x < |anfds| && x != fd ==>
        anfds[x] == old(anfds)[x]
    }

    /** When fds have been put on the list, watchers were stopped. */
    twostate predicate Shrinks()
      reads `started, `fdchanges
    {
      && |old(fdchanges)| <= |fdchanges|
      && (|started| < |old(started)| || (started == old(started) && fdchanges == old(fdchanges)))
    }

    /** fd_kill */
    method FdKill(fd: nat, ghost i: nat)
      requires Listed(i) && Lists() && Cache() && fd < |anfds|
      modifies `anfds, `started, `fdchanges, `killed
      ensures Listed(i) && Lists() && Cache() && |anfds| == |old(anfds)|
      ensures anfds[fd].list == []
      ensures anfds == old(anfds)[fd := old(anfds)[fd].(list := [],
        reify := old(anfds)[fd].reify + if old(anfds)[fd].list == [] then {} else {Reify})]
      ensures |started| == |old(started)| - |old(anfds)[fd].list| && |old(fdchanges)| <= |fdchanges|
      ensures killed == old(killed) + WatchersOf(old(anfds)[fd].list)
      ensures Kills()
    {
      assert anfds[fd].reify + {} == anfds[fd].reify;
      while anfds[fd].list != []
        invariant Listed(i) && Lists() && Cache() && |anfds| == |old(anfds)|
        invariant |anfds[fd].list| <= |old(anfds)[fd].list|
        invariant anfds == old(anfds)[fd := old(anfds)[fd].(list := anfds[fd].list,
          reify := old(anfds)[fd].reify + if |anfds[fd].list| == |old(anfds)[fd].list| then {} else {Reify})]
        invariant |anfds[fd].list| == |old(anfds)[fd].list| ==> anfds[fd].list == old(anfds)[fd].list
        invariant |started| + |old(anfds)[fd].list| == |old(started)| + |anfds[fd].list|
          && |old(fdchanges)| <= |fdchanges|
        invariant Kills()
        invariant killed + WatchersOf(anfds[fd].list) == old(killed) + WatchersOf(old(anfds)[fd].list)
        decreases |anfds[fd].list|
      {
        KilledSoFar(killed, anfds[fd].list);
        KillHead(fd, i);
      }
    }

    /** What was done to fd is nothing to the others. */
    twostate lemma OthersKept(fd: nat)
      requires old(CacheBut(fd)) && fd < |anfds| == |old(anfds)| && files == old(files) && postfork == old(postfork)
      requires forall x {:trigger anfds[x]} :: 0 <= x < |anfds| && x != fd ==> anfds[x] == old(anfds)[x]
      requires kernel - {fd} == old(kernel) - {fd} && stale - {fd} == old(stale) - {fd}
      requires forall x :: x in old(eperms) ==> x in eperms
      requires forall j {:trigger eperms[j]} :: 0 <= j < |eperms| ==> eperms[j] < |anfds|
      requires Believes(fd) && Serves(fd)
      ensures Cache()
    {
      forall x | 0 <= x < |anfds| && x != fd ensures Believes(x) && Serves(x) {
        assert anfds[x] == old(anfds)[x] && old(Believes(x)) && old(Serves(x));
        assert x in stale - {fd} <==> x in old(stale) - {fd};
        assert x in kernel - {fd} <==> x in old(kernel) - {fd};
        assert x in kernel ==> (kernel - {fd})[x] == (old(kernel) - {fd})[x];
      }
      forall x | x in kernel ensures x < |anfds| {
        assert x != fd ==> x in kernel - {fd};
      }
    }

    /** The part of epoll_modify before fd_kill: counts the generation up, and down again
        when the kernel was right already. */
    method TellKernel(fd: nat, oev: Mask, nev: Mask) returns (failed: bool)
      requires CacheBut(fd) && fd < |anfds| && anfds[fd].events == nev != {} && anfds[fd].reify == {}
      modifies `anfds, `kernel, `eperms, `stale
      ensures Cache() && (failed ==> fd !in files || full)
      ensures stale == if failed then old(stale) + {fd} else old(stale) - {fd}
      ensures |anfds| == |old(anfds)|
      // an fd that has the mark already is on the list
      ensures eperms == old(eperms) || (old(anfds)[fd].emask != Eperm && eperms == old(eperms) + [fd])
      ensures anfds == old(anfds)[fd := old(anfds)[fd].(emask := anfds[fd].emask, egen := anfds[fd].egen)]
      // a new registration has a new generation
      ensures !failed ==>
        if kernel == old(kernel) && (fd !in files || files[fd]) then anfds[fd].egen == old(anfds)[fd].egen
        else anfds[fd].egen == Next(old(anfds)[fd].egen)
      ensures failed ==>
        kernel == old(kernel) && (fd !in files || files[fd]) && Previous(anfds[fd].egen) == old(anfds)[fd].egen
    {
      assert Believes(fd);
      var oldmask := anfds[fd].emask;
      anfds := anfds[fd := anfds[fd].(emask := Cached(nev), egen := Next(anfds[fd].egen))];
      var outcome := Register(fd, oev, nev, oldmask);
      if outcome == Kept {
        anfds := anfds[fd := anfds[fd].(egen := Previous(anfds[fd].egen))];
      }
      failed := outcome == Failed;
      stale := if failed then stale + {fd} else stale - {fd};
      OthersKept(fd);
    }

    /** dec_egen, for an fd that is not registered. */
    method CountDown(fd: nat, ghost i: nat)
      requires Listed(i) && Lists() && Cache() && fd < |anfds| && fd in stale
      modifies `anfds
      ensures Listed(i) && Lists() && Cache() && |anfds| == |old(anfds)|
      ensures anfds == old(anfds)[fd := old(anfds)[fd].(egen := Previous(old(anfds)[fd].egen))]
    {
      assert Believes(fd);
      anfds := anfds[fd := anfds[fd].(egen := Previous(anfds[fd].egen))];
      OthersKept(fd);
    }

    /** The end of epoll_modify for an unusable fd. */
    method GiveUp(fd: nat, ghost i: nat)
      requires Listed(i) && Lists() && Cache() && fd < |anfds| && fd in stale
      requires anfds[fd].events != {} && anfds[fd].list != []
      modifies `anfds, `started, `fdchanges, `killed
      ensures Listed(i) && Lists() && Cache() && |anfds| == |old(anfds)| && Killed(anfds[fd])
      ensures anfds[fd].egen == Previous(old(anfds)[fd].egen)
      ensures OnlyFd(fd) && Shrinks() && Kills()
      ensures killed == old(killed) + WatchersOf(old(anfds)[fd].list)
    {
      FdKill(fd, i);
      CountDown(fd, i);
    }

    /** TellKernel, beside the lists. */
    method TellBeside(fd: nat, oev: Mask, nev: Mask, ghost i: nat) returns (failed: bool)
      requires Listed(i) && Lists() && CacheBut(fd)
      requires fd < |anfds| && anfds[fd].events == nev != {} && anfds[fd].reify == {}
      modifies `anfds, `kernel, `eperms, `stale
      ensures eperms == old(eperms) || (old(anfds)[fd].emask != Eperm && eperms == old(eperms) + [fd])
      ensures Listed(i) && Lists() && Cache() && OnlyFd(fd) && anfds[fd].list == old(anfds)[fd].list
      ensures failed ==> (fd !in files || full) && anfds[fd].events == nev
      ensures stale == if failed then old(stale) + {fd} else old(stale) - {fd}
      ensures (if failed then Previous(anfds[fd].egen) else anfds[fd].egen)
        == if kernel == old(kernel) && (fd !in files || files[fd])
           then old(anfds)[fd].egen else Next(old(anfds)[fd].egen)
    {
      failed := TellKernel(fd, oev, nev);
    }

    /** epoll_modify, for an fd that somebody waits for. */
    method Push(fd: nat, oev: Mask, nev: Mask, ghost i: nat)
      requires Listed(i) && Lists() && CacheBut(fd)
      requires fd < |anfds| && anfds[fd].events == nev != {} && anfds[fd].reify == {}
      modifies `anfds, `started, `fdchanges, `killed, `kernel, `eperms, `stale
      ensures eperms == old(eperms) || (old(anfds)[fd].emask != Eperm && eperms == old(eperms) + [fd])
      ensures Listed(i) && Lists() && Cache()
      ensures OnlyFd(fd) && Shrinks() && Kills()
      ensures forall x {:trigger x in stale} :: x in stale && x != fd ==> x in old(stale)
      ensures anfds[fd].egen == if kernel == old(kernel) && (fd !in files || files[fd])
        then old(anfds)[fd].egen else Next(old(anfds)[fd].egen)
      ensures (fd !in stale && anfds[fd].list == old(anfds)[fd].list)
        || (Killed(anfds[fd]) && (fd !in files || full))
    {
      var failed := TellBeside(fd, oev, nev, i);
      if failed {
        assert nev != {} && anfds[fd].list != [];
        GiveUp(fd, i);
      }
    }

    /** epoll_modify, for an fd whose mask has just become nev. */
    method EpollModify(fd: nat, oev: Mask, nev: Mask, ghost i: nat)
      requires Listed(i) && Lists() && CacheBut(fd)
      requires fd < |anfds| && anfds[fd].events == nev && anfds[fd].reify == {}
      modifies `anfds, `started, `fdchanges, `killed, `kernel, `eperms, `stale
      ensures eperms == old(eperms) || (old(anfds)[fd].emask != Eperm && eperms == old(eperms) + [fd])
      ensures Listed(i) && Lists() && Cache()
      ensures OnlyFd(fd) && Shrinks() && Kills()
      ensures forall x {:trigger x in stale} :: x in stale && x != fd ==> x in old(stale)
      // the generation is counted on just when the kernel took something new, or the fd is not for epoll
      ensures anfds[fd].egen == if nev == {} || (kernel == old(kernel) && (fd !in files || files[fd]))
        then old(anfds)[fd].egen else Next(old(anfds)[fd].egen)
      ensures (fd !in stale && anfds[fd].list == old(anfds)[fd].list)
        || (Killed(anfds[fd]) && (fd !in files || full))
    {
      if nev == {} {
        stale := stale - {fd};
        OthersKept(fd);
      } else {
        Push(fd, oev, nev, i);
      }
    }

    /** The loop over the watcher list in fd_reify. */
    method UnionOf(list: seq<Entry>) returns (events: Mask)
      ensures events == Union(list)
    {
      events := {};
      var w := 0;
      while w < |list|
        invariant w <= |list| && events + Union(list[w..]) == Union(list)
      {
        assert list[w..][1..] == list[w + 1..];
        events := events + list[w].events;
        w := w + 1;
      }
    }

    /** Apart from the fds of s, only those are stale that were killed just now. */
    ghost predicate StaleFrom(s: set<nat>)
      reads `anfds, `stale
    {
      forall x {:trigger x in stale} :: x in stale ==> x in s || (x < |anfds| && Killed(anfds[x]))
    }

    /** Only the mask of fd is new. */
    twostate lemma UnionTold(fd: nat)
      requires old(Cache()) && fd < |anfds| == |old(anfds)| && unchanged(`kernel, `files, `eperms, `stale, `postfork)
      requires anfds == old(anfds)[fd := old(anfds)[fd].(reify := {}, events := anfds[fd].events)]
      ensures CacheBut(fd)
    {
      assert old(Believes(fd));
      forall x | 0 <= x < |anfds| && x != fd ensures Believes(x) && Serves(x) {
        assert old(Believes(x)) && old(Serves(x));
      }
    }

    /** One round of the loop of fd_reify. */
    method ReifyOne(ghost i: nat, fd: nat, ghost s: set<nat>)
      requires StaleFrom(s)
      requires Listed(i) && Lists() && Cache() && i < |fdchanges| && fdchanges[i] == fd
      modifies `anfds, `started, `fdchanges, `killed, `kernel, `eperms, `stale
      ensures Listed(i + 1) && Lists() && Cache() && StaleFrom(s)
      ensures OnlyFd(fd) && Shrinks() && Kills()
      ensures anfds[fd].list == old(anfds)[fd].list || (anfds[fd].list == [] && (fd !in files || full))
      // the backend is spared when there is nothing to tell it
      ensures old(anfds)[fd].events == Union(old(anfds)[fd].list) && Fdset !in old(anfds)[fd].reify ==>
        kernel == old(kernel) && stale == old(stale) && anfds[fd] == old(anfds)[fd].(reify := {})
    {
      var a := anfds[fd];
      var events := UnionOf(a.list);
      SetMask(i, fd, events);
      Refresh(fd, a.events, events, a.events != events || Fdset in a.reify, i + 1, s);
    }

    /** backend_modify, if there is anything to tell the backend. */
    method Refresh(fd: nat, oev: Mask, nev: Mask, changed: bool, ghost i: nat, ghost s: set<nat>)
      requires Listed(i) && Lists() && CacheBut(fd) && fd < |anfds| && StaleBut(s, fd)
      requires anfds[fd].events == nev && anfds[fd].reify == {}
      requires !changed ==> Serves(fd) && (fd in stale ==> fd in s)
      modifies `anfds, `started, `fdchanges, `killed, `kernel, `eperms, `stale
      ensures Listed(i) && Lists() && Cache() && StaleFrom(s)
      ensures OnlyFd(fd) && Shrinks() && Kills()
      ensures anfds[fd].list == old(anfds)[fd].list || (anfds[fd].list == [] && (fd !in files || full))
      ensures !changed ==> kernel == old(kernel) && stale == old(stale) && anfds == old(anfds)
    {
      if changed {
        EpollModify(fd, oev, nev, i);
      } else {
        OthersKept(fd);
      }
    }

    /** The same as StaleFrom, fd aside. */
    ghost predicate StaleBut(s: set<nat>, fd: nat)
      reads `anfds, `stale
    {
      forall x {:trigger x in stale} :: x in stale && x != fd ==> x in s || (x < |anfds| && Killed(anfds[x]))
    }

    /** Takes fd off the list, and its mask from its watchers. */
    method SetMask(ghost i: nat, fd: nat, events: Mask)
      requires Listed(i) && Lists() && Cache() && i < |fdchanges| && fdchanges[i] == fd
      requires events == Union(anfds[fd].list)
      modifies `anfds
      ensures Listed(i + 1) && Lists() && CacheBut(fd) && |anfds| == |old(anfds)|
      ensures anfds == old(anfds)[fd := old(anfds)[fd].(reify := {}, events := events)]
      ensures Believes(fd) && (events == old(anfds)[fd].events && Fdset !in old(anfds)[fd].reify ==> Serves(fd))
    {
      assert Believes(fd) && Serves(fd);
      anfds := anfds[fd := anfds[fd].(reify := {}, events := events)];
      UnionTold(fd);
    }

    /** Every watcher list is what it was, or empty because the fd is unusable. */
    twostate predicate ListsKept()
      reads `anfds, `files, `full
    {
      |anfds| == |old(anfds)| && forall fd {:trigger anfds[fd]} :: 0 <= fd < |anfds| ==>
        anfds[fd].list == old(anfds)[fd].list || (anfds[fd].list == [] && (fd !in files || full))
    }

    /** The loop of fd_reify. */
    method ReifyAll()
      requires Valid()
      modifies `anfds, `started, `fdchanges, `killed, `kernel, `eperms, `stale
      ensures Listed(|fdchanges|) && Lists() && Cache()
      ensures StaleFrom(old(stale)) && Kills() && ListsKept()
    {
      var i := 0;
      while i < |fdchanges|
        invariant Listed(i) && Lists() && Cache()
        invariant StaleFrom(old(stale)) && Kills() && ListsKept()
        decreases |started|, |fdchanges| - i
      {
        ReifyOne(i, fdchanges[i], old(stale));
        i := i + 1;
      }
    }

    /** Once all changes are made no fd has a reify flag, and every mask is right. */
    lemma AllReified()
      requires Listed(|fdchanges|)
      ensures forall fd {:trigger anfds[fd]} :: 0 <= fd < |anfds| ==>
        anfds[fd].reify == {} && anfds[fd].events == Union(anfds[fd].list)
    {
    }

    /** A watcher whose fd has the same list as before is started still. */
    twostate lemma OnlyUnusable(w: Watcher)
      requires old(Lists()) && Lists() && ListsKept() && w in old(started) && w !in started
      ensures old(started)[w] !in files || full
    {
      var fd := old(started)[w];
      var list := old(anfds)[fd].list;
      if anfds[fd].list == list {
        StillStarted(w, fd);
      }
    }

    lemma StillStarted(w: Watcher, fd: nat)
      requires Lists() && fd < |anfds| && w in Members(anfds[fd].list)
      ensures w in started
    {
      MembersIs(anfds[fd].list, w);
      var k :| 0 <= k < |anfds[fd].list| && anfds[fd].list[k].w == w;
    }

    /** fd_reify */
    method FdReify()
      requires Valid()
      modifies `anfds, `started, `fdchanges, `killed, `kernel, `eperms, `stale
      ensures Valid() && fdchanges == [] && stale <= old(stale) && ListsKept()
      // every watcher is started still, or was killed; only those were
      ensures forall w {:trigger w in started} :: w in started ==> w in old(started) && started[w] == old(started)[w]
      ensures forall w {:trigger w in old(started)} :: w in old(started) ==> w in started || w in killed
      ensures forall w {:trigger w in killed} :: w in killed ==> w in old(started) && w !in started
      // and those of unusable fds
      ensures forall w {:trigger w in killed} :: w in killed ==> old(started)[w] !in files || full
      ensures forall fd {:trigger anfds[fd]} :: 0 <= fd < |anfds| ==>
        anfds[fd].reify == {} && anfds[fd].events == Union(anfds[fd].list)
    {
      killed := [];
      ReifyAll();
      forall w | w in killed ensures old(started)[w] !in files || full {
        OnlyUnusable(w);
      }
      AllReified();
      NoneStale(old(stale));
      fdchanges := [];
    }

    lemma NoneStale(s: set<nat>)
      requires Listed(|fdchanges|) && StaleFrom(s)
      ensures stale <= s
    {
    }

    /** What fd_reify is for.  When it is done every fd with started watchers is watched
        for the union of their masks, under its present generation, unless it was closed
        and reopened without ev_io_set; and such an fd the kernel does not know. */
    lemma AllWatched(fd: nat)
      requires Valid() && fdchanges == [] && fd < |anfds|
      ensures fd in stale ==> fd !in kernel
      ensures Union(anfds[fd].list) != {} && fd !in stale && !postfork ==>
        if fd in files && files[fd] then fd in kernel && kernel[fd] == Reg(Union(anfds[fd].list), anfds[fd].egen)
        else fd in files && fd in eperms
    {
      assert Believes(fd) && Serves(fd);
      assert Count(fdchanges, 0, fd) == 0;
    }

    /** So a started watcher has its events among those the kernel watches, or its fd is
        treated as always ready. */
    lemma StartedIsWatched(w: Watcher) returns (k: nat)
      requires Valid() && fdchanges == [] && w in started
      ensures var fd := started[w];
        && fd < |anfds| && k < |anfds[fd].list| && anfds[fd].list[k].w == w
        && (anfds[fd].list[k].events != {} && fd !in stale && !postfork ==>
          && fd in files
          && if files[fd] then fd in kernel && anfds[fd].list[k].events <= kernel[fd].mask else fd in eperms)
    {
      var fd := started[w];
      var list := anfds[fd].list;
      MembersIs(list, w);
      k :| 0 <= k < |list| && list[k].w == w;
      forall b | b in list[k].events ensures b in Union(list) {
        UnionIs(list, b);
      }
      AllWatched(fd);
    }

    // ----- the other half of the backend

    /** Events have been fed, if any, to started watchers. */
    twostate predicate Feeds()
      reads `fed, `started
    {
      old(fed) <= fed && forall j {:trigger fed[j]} :: |old(fed)| <= j < |fed| ==> fed[j].w in started
    }

    /** fd_event: an fd on the list of changes is passed over. */
    method FdEvent(fd: nat, revents: Mask)
      requires fd < |anfds|
      modifies `fed
      ensures fed == old(fed) + if anfds[fd].reify == {} then Matching(anfds[fd].list, revents) else []
      ensures Lists() ==> Feeds()
    {
      if anfds[fd].reify == {} {
        var list := anfds[fd].list;
        var k := 0;
        while k < |list|
          invariant k <= |list| && fed + Matching(list[k..], revents) == old(fed) + Matching(list, revents)
        {
          assert list[k..][1..] == list[k + 1..];
          var ev := list[k].events * revents;
          if ev != {} {
            fed := fed + [Entry(list[k].w, ev)];
          }
          k := k + 1;
        }
        MatchingStarted(fd, revents);
      }
    }

    /** What matches is for watchers that are started. */
    lemma MatchingStarted(fd: nat, revents: Mask)
      requires fd < |anfds|
      ensures Lists() ==> var ms := Matching(anfds[fd].list, revents);
        forall j {:trigger ms[j]} :: 0 <= j < |ms| ==> ms[j].w in started
    {
      var list := anfds[fd].list;
      var ms := Matching(list, revents);
      MatchingIs(list, revents);
      forall j | 0 <= j < |ms| && Lists() ensures ms[j].w in started {
        assert ms[j] in ms && Matched(list, revents, ms[j]);
        var k :| 0 <= k < |list| && ms[j] == Entry(list[k].w, list[k].events * revents);
        assert anfds[fd].list[k].w in started;
      }
    }

    /** The check of epoll_poll for an event nobody asked for: tells the kernel again what
        is wanted, and says whether the event may be delivered. */
    method Unwanted(fd: nat, gen: nat) returns (deliver: bool)
      requires Listed(0) && Lists() && Cache() && fd < |anfds| && anfds[fd].egen == gen
      modifies `anfds, `kernel, `postfork
      ensures Listed(0) && Lists() && Cache() && |anfds| == |old(anfds)|
      ensures anfds == old(anfds)[fd := old(anfds)[fd].(emask := Cached(old(anfds)[fd].events))]
      ensures deliver <==> fd in old(kernel)
      ensures kernel.Keys == if old(anfds)[fd].events == {} then old(kernel.Keys) - {fd} else old(kernel.Keys)
      ensures postfork == (old(postfork) || !deliver)
    {
      assert Believes(fd) && Serves(fd);
      var want := anfds[fd].events;
      anfds := anfds[fd := anfds[fd].(emask := Cached(want))];
      var e := Ctl(if want != {} then Mod else Del, fd, Reg(want, gen));
      deliver := e == Ok;
      if !deliver { postfork := true; }
      WantTold(fd);
    }

    /** After the kernel was told the mask of fd once more, or refused. */
    twostate lemma WantTold(fd: nat)
      requires old(Cache()) && fd < |anfds| == |old(anfds)| && unchanged(`files, `eperms, `stale)
      requires kernel - {fd} == old(kernel) - {fd} && (old(postfork) ==> postfork)
      requires forall x {:trigger anfds[x]} :: 0 <= x < |anfds| && x != fd ==> anfds[x] == old(anfds)[x]
      requires Believes(fd) && Serves(fd)
      ensures Cache()
    {
      forall x | 0 <= x < |anfds| && x != fd ensures Believes(x) && Serves(x) {
        assert anfds[x] == old(anfds)[x] && old(Believes(x)) && old(Serves(x));
        assert x in kernel - {fd} <==> x in old(kernel) - {fd};
        assert x in kernel ==> (kernel - {fd})[x] == (old(kernel) - {fd})[x];
      }
      forall x | x in kernel ensures x < |anfds| {
        assert x != fd ==> x in kernel - {fd};
      }
    }

    ghost function Seen(): View
      reads `anfds, `kernel
    {
      View(anfds, kernel.Keys)
    }

    /** What epoll_poll does with one event. */
    method PollOne(ev: Report)
      requires Valid() && ev.fd < |anfds|
      modifies `anfds, `kernel, `postfork, `fed
      ensures Valid() && Seen() == Past(old(Seen()), ev)
      ensures fed == old(fed) + Delivery(old(Seen()), ev) && Feeds()
      // then the kernel's set is to be built anew
      ensures postfork == (old(postfork) || Spurious(old(Seen()), ev))
    {
      var got := Got(ev.bits);
      if anfds[ev.fd].egen != ev.gen {
        RecreateLater();
      } else {
        var deliver := true;
        if !(got <= anfds[ev.fd].events) {
          deliver := Unwanted(ev.fd, ev.gen);
        }
        if deliver {
          FdEvent(ev.fd, got);
        }
      }
    }

    /** postfork |= 2 */
    method RecreateLater()
      requires Valid()
      modifies `postfork
      ensures Valid() && postfork
    {
      postfork := true;
      forall x | 0 <= x < |anfds| ensures Believes(x) && Serves(x) {
        assert old(Believes(x));
      }
    }

    /** One round of the loop over epoll_eperms: an fd that still has the mark and watchers
        is ready; any other leaves the list and its cache is reset. */
    method EpermOne(i: nat, fd: nat)
      requires Valid() && i < |eperms| && fd == eperms[i]
      modifies `anfds, `eperms, `fed
      ensures Valid() && |anfds| == |old(anfds)|
      ensures fed == old(fed) + Synthesized(old(anfds)[fd])
      ensures AlwaysReady(old(anfds)[fd]) ==> anfds == old(anfds) && eperms == old(eperms)
      ensures !AlwaysReady(old(anfds)[fd]) ==> anfds == old(anfds)[fd := old(anfds)[fd].(emask := Cached({}))]
      ensures !AlwaysReady(old(anfds)[fd]) ==> |eperms| == |old(eperms)| - 1
      ensures !AlwaysReady(old(anfds)[fd]) ==> forall j {:trigger eperms[j]} :: 0 <= j < |eperms| ==>
        eperms[j] == old(eperms)[if j == i then |eperms| else j]
      ensures Feeds()
    {
      if AlwaysReady(anfds[fd]) {
        FdEvent(fd, anfds[fd].events);
      } else {
        DropEperm(i, fd);
      }
    }

    method DropEperm(i: nat, fd: nat)
      requires Valid() && i < |eperms| && fd == eperms[i] && !AlwaysReady(anfds[fd])
      modifies `anfds, `eperms
      ensures Valid() && anfds == old(anfds)[fd := old(anfds)[fd].(emask := Cached({}))]
      ensures |eperms| == |old(eperms)| - 1 && forall j {:trigger eperms[j]} :: 0 <= j < |eperms| ==>
        eperms[j] == old(eperms)[if j == i then |eperms| else j]
    {
      ghost var before := eperms;
      var last := |eperms| - 1;
      eperms := eperms[i := eperms[last]];
      eperms := eperms[..last];
      anfds := anfds[fd := anfds[fd].(emask := Cached({}))];
      forall j | 0 <= j < last ensures eperms[j] < |anfds| {
        assert eperms[j] == before[if j == i then last else j];
      }
      forall x | 0 <= x < |anfds| ensures Believes(x) && Serves(x) {
        assert old(Believes(x)) && old(Serves(x));
        if x != fd && x in before {
          var j :| 0 <= j < |before| && before[j] == x;
          assert eperms[if j == last then i else j] == x;
        }
      }
    }

    /** One round, with what it means for the whole walk. */
    method WalkOne(i: nat, ghost n: nat, ghost a0: seq<Anfd>, ghost e0: seq<nat>)
      requires Valid() && n == i + 1 && Walked(a0, e0, anfds, eperms, n)
      modifies `anfds, `eperms, `fed
      ensures Valid() && Walked(a0, e0, anfds, eperms, i)
      ensures fed == old(fed) + Synthesized(a0[e0[i]]) && Feeds()
    {
      ghost var a, e, fd := anfds, eperms, eperms[i];
      assert e[..n][i] == e0[..n][i];
      EpermOne(i, eperms[i]);
      if AlwaysReady(a[fd]) {
        WalkKeeps(a0, e0, a, e, n, i);
      } else {
        WalkDrops(a0, e0, a, e, n, i, anfds, eperms);
      }
    }

    /** The same, beside what is still to be fed. */
    method WalkNext(i: nat, ghost n: nat, ghost a0: seq<Anfd>, ghost e0: seq<nat>)
      requires Valid() && n == i + 1 && Walked(a0, e0, anfds, eperms, n)
      modifies `anfds, `eperms, `fed
      ensures Valid() && Walked(a0, e0, anfds, eperms, i) && Feeds()
      ensures fed + SynthesizedBelow(a0, e0, i) == old(fed) + SynthesizedBelow(a0, e0, n)
    {
      Regroup(fed, Synthesized(a0[e0[i]]), SynthesizedBelow(a0, e0, i));
      WalkOne(i, n, a0, e0);
    }

    /** The loop over epoll_eperms.  Each fd on it that epoll cannot handle, and that somebody
        waits for, is fed as ready, the last first, and just those stay on the list. */
    method PollEperms()
      requires Valid()
      modifies `anfds, `eperms, `fed
      ensures Valid() && Walked(old(anfds), old(eperms), anfds, eperms, 0) && Feeds()
      ensures fed == old(fed) + SynthesizedBelow(old(anfds), old(eperms), |old(eperms)|)
    {
      var i: nat := |eperms|;
      while i > 0
        invariant Valid() && Walked(old(anfds), old(eperms), anfds, eperms, i) && Feeds()
        invariant fed + SynthesizedBelow(old(anfds), old(eperms), i)
          == old(fed) + SynthesizedBelow(old(anfds), old(eperms), |old(eperms)|)
      {
        ghost var n := i;
        i := i - 1;
        WalkNext(i, n, old(anfds), old(eperms));
      }
    }

    /** How far the loop over the events has come: k of them have been handled since v0 was
        seen and fed0 had been fed. */
    ghost predicate Handled(events: seq<Report>, k: nat, v0: View, fed0: seq<Entry>)
      reads this
    {
      && Valid() && k <= |events| && InTable(v0, events) && InTable(Seen(), events[k..])
      && fed + Deliveries(Seen(), events[k..]) == fed0 + Deliveries(v0, events)
      && PastAll(Seen(), events[k..]) == PastAll(v0, events)
    }

    /** One round of it. */
    method HandleOne(events: seq<Report>, k: nat, ghost n: nat, ghost v0: View, ghost fed0: seq<Entry>)
      requires n == k + 1 <= |events| && Handled(events, k, v0, fed0)
      modifies `anfds, `kernel, `postfork, `fed
      ensures Handled(events, n, v0, fed0) && Feeds()
    {
      assert events[k..][1..] == events[n..];
      Regroup(fed, Delivery(Seen(), events[k]), Deliveries(Past(Seen(), events[k]), events[n..]));
      PollOne(events[k]);
    }

    /** The loop over the events. */
    method HandleAll(events: seq<Report>)
      requires Valid() && InTable(Seen(), events)
      modifies `anfds, `kernel, `postfork, `fed
      ensures Valid() && Seen() == PastAll(old(Seen()), events) && Feeds()
      ensures fed == old(fed) + Deliveries(old(Seen()), events)
    {
      assert events[0..] == events;
      for k := 0 to |events|
        invariant Handled(events, k, old(Seen()), old(fed)) && Feeds()
      {
        HandleOne(events, k, k + 1, old(Seen()), old(fed));
      }
    }

    /** What epoll_poll feeds: what each event delivers, in turn, and then what is made up for
        the fds that epoll cannot handle. */
    ghost function Polled(events: seq<Report>): seq<Entry>
      requires Valid() && InTable(Seen(), events)
      reads this
    {
      Deliveries(Seen(), events) + SynthesizedBelow(PastAll(Seen(), events).anfds, eperms, |eperms|)
    }

    /** epoll_poll, for the events that epoll_wait returns. */
    method EpollPoll(events: seq<Report>)
      requires Valid() && InTable(Seen(), events)
      modifies `anfds, `kernel, `postfork, `fed, `eperms
      ensures Valid() && Feeds() && Walked(PastAll(old(Seen()), events).anfds, old(eperms), anfds, eperms, 0)
      ensures fed == old(fed) + old(Polled(events))
      // on the list are left just those that epoll cannot handle and somebody waits for
      ensures forall j {:trigger eperms[j]} :: 0 <= j < |eperms| ==>
        eperms[j] in old(eperms) && anfds[eperms[j]].emask == Eperm && anfds[eperms[j]].events != {}
    {
      HandleAll(events);
      Regroup(old(fed), Deliveries(old(Seen()), events), SynthesizedBelow(anfds, eperms, |eperms|));
      PollEperms();
    }

    /** One round of fd_rearm_all. */
    method RearmOne(fd: nat)
      requires Valid() && fd < |anfds| && kernel == map[] && stale == {} && postfork
      modifies `anfds, `fdchanges
      ensures Valid() && |anfds| == |old(anfds)|
      ensures anfds == old(anfds)[fd := anfds[fd]] && anfds[fd].events == {} && anfds[fd].list == old(anfds)[fd].list
      ensures old(anfds)[fd].events != {} ==> Fdset in anfds[fd].reify
    {
      if anfds[fd].events != {} {
        anfds := anfds[fd := anfds[fd].(events := {}, emask := Cached({}))];
        FdChange(fd, {Fdset, Reify}, 0);
        assert old(Believes(fd));
        OthersKept(fd);
      }
    }

    /** epoll_fork: a new epoll set, and every fd is to be registered again. */
    method EpollFork()
      requires Valid()
      modifies `anfds, `fdchanges, `kernel, `stale, `postfork
      ensures Valid() && |anfds| == |old(anfds)| && kernel == map[] && stale == {} && !postfork
      ensures forall fd {:trigger anfds[fd]} :: 0 <= fd < |anfds| ==>
        anfds[fd].list == old(anfds)[fd].list && anfds[fd].events == {}
        && (old(anfds)[fd].events != {} ==> Fdset in anfds[fd].reify)
    {
      NewSet();
      for fd := 0 to |anfds|
        invariant Valid() && |anfds| == |old(anfds)| && kernel == map[] && stale == {} && postfork
        invariant forall x {:trigger anfds[x]} :: 0 <= x < |anfds| ==>
          if x >= fd then anfds[x] == old(anfds)[x]
          else
            && anfds[x].list == old(anfds)[x].list && anfds[x].events == {}
            && (old(anfds)[x].events != {} ==> Fdset in anfds[x].reify)
      {
        RearmOne(fd);
      }
      Recreated();
    }

    /** epoll_create after close: the new set is empty. */
    method NewSet()
      requires Valid()
      modifies `kernel, `stale, `postfork
      ensures Valid() && kernel == map[] && stale == {} && postfork
    {
      kernel, stale, postfork := map[], {}, true;
      forall x | 0 <= x < |anfds| ensures Believes(x) && Serves(x) {
        assert old(Believes(x));
      }
    }

    /** postfork = 0, when no fd has a mask. */
    method Recreated()
      requires Valid() && forall fd {:trigger anfds[fd]} :: 0 <= fd < |anfds| ==> anfds[fd].events == {}
      modifies `postfork
      ensures Valid() && !postfork
    {
      postfork := false;
      forall x | 0 <= x < |anfds| ensures Believes(x) && Serves(x) {
        assert old(Believes(x)) && anfds[x].events == {};
      }
    }

    // ----- the environment

    /** close: the kernel forgets the fd without a word. */
    method Close(fd: nat)
      requires Valid()
      modifies `files, `kernel, `stale
      ensures Valid() && files == old(files) - {fd} && kernel == old(kernel) - {fd}
      ensures stale == old(stale)
        + if fd < |anfds| && anfds[fd].events != {} && Fdset !in anfds[fd].reify then {fd} else {}
    {
      files, kernel := files - {fd}, kernel - {fd};
      if fd < |anfds| && anfds[fd].events != {} && Fdset !in anfds[fd].reify {
        stale := stale + {fd};
      }
      forall x | 0 <= x < |anfds| ensures Believes(x) && Serves(x) {
        assert old(Believes(x)) && old(Serves(x));
      }
    }

    /** open, which returns an fd that was not in use. */
    method Open(fd: nat, pollable: bool)
      requires Valid() && fd !in files
      modifies `files
      ensures Valid() && files == old(files)[fd := pollable]
    {
      files := files[fd := pollable];
      forall x | 0 <= x < |anfds| ensures Believes(x) && Serves(x) {
        assert old(Believes(x)) && old(Serves(x));
      }
    }
  }
}
