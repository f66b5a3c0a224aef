/** libev's queue of pending watchers: one list of slots per priority, drained from the
    back, while the callbacks it invokes feed, clear, stop and drain again. */
module PendingQueue {
  import opened Common
  import opened Watchers

  const MINPRI := -2
  const MAXPRI := 2
  const NUMPRI := 5

  function AbsPri(priority: int): int { priority - MINPRI }

  /** One entry of a queue. */
  datatype Slot = Slot(w: Watcher, events: Events)

  /** The record behind ev_once: an io and a timer watcher that share one callback. */
  datatype Once = Once(io: Watcher, to: Watcher)

  // ----- the specification: a table of what is due

  type Table = map<Watcher, Events>

  /** What happened, in order. */
  datatype Entry =
    | Fed(w: Watcher, events: Events)
    | Cleared(w: Watcher)
    | Called(w: Watcher, events: Events)   // w's callback was entered
    | OnceRun(once: Once, events: Events)  // the callback of a once record was entered

  function EventsOf(d: Table, w: Watcher): Events {
    if w in d then d[w] else {}
  }

  /** Feeding adds to what is due already; calling and clearing take it away. */
  function Apply(d: Table, e: Entry): Table {
    match e
    case Fed(w, events) => d[w := EventsOf(d, w) + events]
    case Cleared(w) => d - {w}
    case Called(w, _) => d - {w}
    case OnceRun(o, _) => d - {o.io, o.to}
  }

  function Replay(log: seq<Entry>): Table {
    if log == [] then map[] else Apply(Replay(log[..|log| - 1]), log[|log| - 1])
  }

  ghost predicate Highest(d: Table, w: Watcher) {
    w in d && forall v :: v in d ==> v.priority <= w.priority
  }

  /** A callback is entered only for what is due and of the highest priority, with all
      the events fed since; a once callback with those of both its watchers. */
  ghost predicate Allowed(d: Table, e: Entry) {
    match e
    case Fed(_, _) => true
    case Cleared(_) => true
    case Called(w, events) => Highest(d, w) && events == d[w]
    case OnceRun(o, events) => (Highest(d, o.io) || Highest(d, o.to)) && events == EventsOf(d, o.io) + EventsOf(d, o.to)
  }

  ghost predicate Lawful(log: seq<Entry>) {
    log == [] || (Lawful(log[..|log| - 1]) && Allowed(Replay(log[..|log| - 1]), log[|log| - 1]))
  }

  /** The table after the watchers of the list were fed from n on, beginning with the last. */
  ghost function FedFrom(d0: Table, rfeeds: seq<Watcher>, n: nat, revents: Events): Table
    requires n <= |rfeeds|
    decreases |rfeeds| - n
  {
    if n == |rfeeds| then d0
    else Apply(FedFrom(d0, rfeeds, n + 1, revents), Fed(rfeeds[n], revents))
  }

  lemma FedFromNext(d0: Table, rfeeds: seq<Watcher>, n: nat, m: nat, revents: Events, d: Table)
    requires n == m + 1 <= |rfeeds| && d == FedFrom(d0, rfeeds, n, revents)
    ensures FedFrom(d0, rfeeds, m, revents) == Apply(d, Fed(rfeeds[m], revents))
  {
  }

  /** Each is due with the new events beside its old ones, and nothing else has changed. */
  lemma {:induction false} FedFromIs(d0: Table, rfeeds: seq<Watcher>, n: nat, revents: Events)
    requires n <= |rfeeds|
    requires forall j, k {:trigger rfeeds[j], rfeeds[k]} :: n <= j < k < |rfeeds| ==> rfeeds[j] != rfeeds[k]
    ensures FedFrom(d0, rfeeds, n, revents).Keys == d0.Keys + (set k | n <= k < |rfeeds| :: rfeeds[k])
    ensures forall k {:trigger rfeeds[k]} :: n <= k < |rfeeds| ==>
      FedFrom(d0, rfeeds, n, revents)[rfeeds[k]] == EventsOf(d0, rfeeds[k]) + revents
    ensures forall v {:trigger v in d0} ::
      v in d0 && (forall k {:trigger rfeeds[k]} :: n <= k < |rfeeds| ==> rfeeds[k] != v) ==>
      FedFrom(d0, rfeeds, n, revents)[v] == d0[v]
    decreases |rfeeds| - n
  {
    if n < |rfeeds| {
      FedFromIs(d0, rfeeds, n + 1, revents);
      var w := rfeeds[n];
      assert (set k | n <= k < |rfeeds| :: rfeeds[k]) == (set k | n + 1 <= k < |rfeeds| :: rfeeds[k]) + {w};
      assert EventsOf(FedFrom(d0, rfeeds, n + 1, revents), w) == EventsOf(d0, w);
    }
  }

  /** One more lawful entry. */
  lemma Extend(log: seq<Entry>, e: Entry)
    requires Lawful(log) && Allowed(Replay(log), e)
    ensures Lawful(log + [e]) && Replay(log + [e]) == Apply(Replay(log), e)
  {
    assert (log + [e])[..|log|] == log;
  }

  /** Taking what is due of one of a record's watchers after the other takes both. */
  lemma BothTaken(d: Table, o: Once, w: Watcher, events: Events, others: Events)
    requires (w == o.io || w == o.to) && o.io != o.to && Highest(d, w) && events == d[w]
    requires others == EventsOf(d - {w}, if w == o.io then o.to else o.io)
    ensures Allowed(d, OnceRun(o, events + others))
    ensures events + others == EventsOf(d, o.io) + EventsOf(d, o.to)
    ensures d - {w} - {if w == o.io then o.to else o.io} == Apply(d, OnceRun(o, events + others))
  {
  }

  /** The entry e ends what was due of w. */
  predicate Takes(e: Entry, w: Watcher) {
    match e
    case Fed(_, _) => false
    case Cleared(v) => v == w
    case Called(v, _) => v == w
    case OnceRun(o, _) => o.io == w || o.to == w
  }

  /** What is due was fed, and neither cleared nor called since. */
  lemma {:induction false} DueWasFed(log: seq<Entry>, w: Watcher) returns (j: nat)
    requires w in Replay(log)
    ensures j < |log| && log[j].Fed? && log[j].w == w
    ensures forall k :: j < k < |log| ==> !Takes(log[k], w)
    decreases |log|
  {
    var last := |log| - 1;
    if log[last].Fed? && log[last].w == w {
      j := last;
    } else {
      j := DueWasFed(log[..last], w);
      assert log[..last][j] == log[j];
      forall k | j < k < |log| ensures !Takes(log[k], w) {
        if k < last { assert log[..last][k] == log[k]; }
      }
    }
  }

  lemma {:induction false} LawfulAt(log: seq<Entry>, i: nat)
    requires Lawful(log) && i < |log|
    ensures Allowed(Replay(log[..i]), log[i])
    decreases |log|
  {
    var last := |log| - 1;
    if i < last {
      assert log[..last][..i] == log[..i];
      LawfulAt(log[..last], i);
    }
  }

  /** A watcher that was stopped or called is not called again until it is fed. */
  lemma NoCallUnlessFed(log: seq<Entry>, i: nat, w: Watcher) returns (j: nat)
    requires Lawful(log) && i < |log| && log[i].Called? && log[i].w == w
    ensures j < i && log[j].Fed? && log[j].w == w
    ensures forall k :: j < k < i ==> !Takes(log[k], w)
  {
    LawfulAt(log, i);
    j := DueWasFed(log[..i], w);
  }

  /** In a lawful history nobody due has a higher priority than a watcher whose callback is
      entered, or than one of the two of an ev_once record. */
  lemma CalledInPriority(log: seq<Entry>, i: nat, v: Watcher)
    requires Lawful(log) && i < |log| && v in Replay(log[..i])
    ensures log[i].Called? ==> v.priority <= log[i].w.priority
    ensures log[i].OnceRun? ==> v.priority <= log[i].once.io.priority || v.priority <= log[i].once.to.priority
  {
    LawfulAt(log, i);
  }

  /** No entry from n up to i takes w. */
  ghost predicate Untaken(log: seq<Entry>, n: nat, i: nat, w: Watcher)
    requires i <= |log|
  {
    forall k {:trigger Takes(log[k], w)} :: n <= k < i ==> !Takes(log[k], w)
  }

  /** A moment: how long the history was then, and who was due and had which slot. */
  datatype Moment = Moment(n: nat, seats: map<Watcher, nat>) {
    /** v had a later slot than w, at the same priority. */
    ghost predicate Behind(w: Watcher, v: Watcher) {
      w in seats && v in seats && w.priority == v.priority && seats[w] < seats[v]
    }
  }

  /** If x is still where it was at the moment m, those behind it have been taken. */
  ghost predicate IsNext(log: seq<Entry>, i: nat, m: Moment, x: Watcher)
    requires i <= |log|
  {
    x in m.seats && Untaken(log, m.n, i, x) ==>
      forall v {:trigger v in m.seats} :: v in m.seats && m.Behind(x, v) ==> !Untaken(log, m.n, i, v)
  }

  /** The callback of the entry e, if it is one, is entered in turn at i; that of an ev_once
      record through one of its watchers. */
  ghost predicate TurnOf(log: seq<Entry>, i: nat, m: Moment, e: Entry)
    requires i <= |log|
  {
    match e
    case Called(w, _) => IsNext(log, i, m, w)
    case OnceRun(o, _) =>
      || (o.io in Replay(log[..i]) && IsNext(log, i, m, o.io))
      || (o.to in Replay(log[..i]) && IsNext(log, i, m, o.to))
    case _ => true
  }

  /** Since the moment m nobody was called for what was due then before those behind him
      were called or stopped. */
  ghost predicate InOrder(log: seq<Entry>, m: Moment) {
    forall i {:trigger log[i]} :: m.n <= i < |log| ==> TurnOf(log, i, m, log[i])
  }

  /** The entry at i is a callback entered for w alone. */
  ghost predicate Enters(log: seq<Entry>, i: nat, w: Watcher)
    requires i < |log|
  {
    match log[i]
    case Called(v, _) => v == w
    case OnceRun(o, _) => (w == o.io && o.to !in Replay(log[..i])) || (w == o.to && o.io !in Replay(log[..i]))
    case _ => false
  }

  /** From n on, w is not called for what was due at n before v was called or stopped. */
  ghost predicate ComesFirst(log: seq<Entry>, n: nat, v: Watcher, w: Watcher) {
    forall i {:trigger log[i]} :: n <= i < |log| && Enters(log, i, w) && Untaken(log, n, i, w) ==>
      !Untaken(log, n, i, v)
  }

  lemma BehindComesFirst(log: seq<Entry>, m: Moment, v: Watcher, w: Watcher)
    requires InOrder(log, m) && m.Behind(w, v)
    ensures ComesFirst(log, m.n, v, w)
  {
    forall i | m.n <= i < |log| && Enters(log, i, w) && Untaken(log, m.n, i, w)
      ensures !Untaken(log, m.n, i, v)
    {
      assert TurnOf(log, i, m, log[i]) && v in m.seats;
    }
  }

  /** What was due at n and is not due any more was taken. */
  lemma {:induction false} DueIsTaken(log: seq<Entry>, n: nat, w: Watcher)
    requires n <= |log| && w in Replay(log[..n]) && w !in Replay(log)
    ensures !Untaken(log, n, |log|, w)
    decreases |log|
  {
    assert log[..|log|] == log;
    var last := |log| - 1;
    if w in Replay(log[..last]) {
      assert Takes(log[last], w);
    } else {
      assert log[..last][..n] == log[..n];
      DueIsTaken(log[..last], n, w);
      var k :| n <= k < last && Takes(log[..last][k], w);
      assert Takes(log[k], w);
    }
  }

  /** What one more entry changes. */
  lemma UntakenThen(log: seq<Entry>, e: Entry, n: nat)
    requires n <= |log|
    ensures forall i, w {:trigger Untaken(log + [e], n, i, w)} :: 0 <= i <= |log| ==>
      (Untaken(log + [e], n, i, w) <==> Untaken(log, n, i, w))
    ensures forall w {:trigger Untaken(log + [e], n, |log| + 1, w)} ::
      Untaken(log + [e], n, |log| + 1, w) <==> Untaken(log, n, |log|, w) && !Takes(e, w)
  {
    var more := log + [e];
    forall i, w | 0 <= i <= |log| ensures Untaken(more, n, i, w) <==> Untaken(log, n, i, w) {
      assert forall k {:trigger Takes(log[k], w)} {:trigger Takes(more[k], w)} :: n <= k < i ==> more[k] == log[k];
    }
    forall w ensures Untaken(more, n, |log| + 1, w) <==> Untaken(log, n, |log|, w) && !Takes(e, w) {
      assert Untaken(more, n, |log|, w) <==> Untaken(log, n, |log|, w);
      assert more[|log|] == e;
    }
  }

  lemma OrderExtends(log: seq<Entry>, e: Entry, m: Moment)
    requires m.n <= |log| && InOrder(log, m) && TurnOf(log, |log|, m, e)
    ensures InOrder(log + [e], m)
  {
    UntakenThen(log, e, m.n);
    var more := log + [e];
    forall i | m.n <= i < |more| ensures TurnOf(more, i, m, more[i]) {
      assert more[..i] == log[..i];
      if i < |log| {
        assert more[i] == log[i] && TurnOf(log, i, m, log[i]);
      }
    }
  }

  /** A watcher that was stopped is not called again but for what it was fed since. */
  lemma NotCalledSinceStop(log: seq<Entry>, n: nat, i: nat, w: Watcher) returns (j: nat)
    requires Lawful(log) && n < i < |log| && log[n] == Cleared(w) && log[i].Called? && log[i].w == w
    ensures n < j < i && log[j].Fed? && log[j].w == w
  {
    j := NoCallUnlessFed(log, i, w);
    assert Takes(log[n], w);
  }

  /** The callback of an ev_once record is not called unless one of its watchers was fed. */
  lemma NoOnceUnlessFed(log: seq<Entry>, i: nat) returns (w: Watcher, j: nat)
    requires Lawful(log) && i < |log| && log[i].OnceRun?
    ensures (w == log[i].once.io || w == log[i].once.to) && j < i && log[j].Fed? && log[j].w == w
    ensures forall k :: j < k < i ==> !Takes(log[k], w)
  {
    LawfulAt(log, i);
    w := if log[i].once.io in Replay(log[..i]) then log[i].once.io else log[i].once.to;
    j := DueWasFed(log[..i], w);
  }

  function SlotCount(ps: seq<seq<Slot>>): nat {
    if ps == [] then 0 else SlotCount(ps[..|ps| - 1]) + |ps[|ps| - 1]|
  }

  lemma {:induction false} SlotCountUpdate(ps: seq<seq<Slot>>, p: nat, q: seq<Slot>)
    requires p < |ps|
    ensures SlotCount(ps[p := q]) == SlotCount(ps) - |ps[p]| + |q|
    decreases |ps|
  {
    var last := |ps| - 1;
    if p < last {
      assert ps[p := q][..last] == ps[..last][p := q];
      SlotCountUpdate(ps[..last], p, q);
    } else {
      assert ps[p := q][..last] == ps[..last];
    }
  }

  /** The lengths of the queues are the same. */
  ghost predicate SameLengths(ps: seq<seq<Slot>>, qs: seq<seq<Slot>>) {
    |ps| == |qs| && forall p {:trigger ps[p]} {:trigger qs[p]} :: 0 <= p < |ps| ==> |ps[p]| == |qs[p]|
  }

  lemma {:induction false} SameCount(ps: seq<seq<Slot>>, qs: seq<seq<Slot>>)
    requires SameLengths(ps, qs)
    ensures SlotCount(ps) == SlotCount(qs)
    decreases |ps|
  {
    if ps != [] {
      assert |ps[|ps| - 1]| == |qs[|ps| - 1]|;
      SameCount(ps[..|ps| - 1], qs[..|ps| - 1]);
    }
  }

  /** Nothing is queued with a priority of p or higher. */
  ghost predicate EmptyFrom(ps: seq<seq<Slot>>, p: int) {
    forall q {:trigger ps[q]} :: 0 <= q < |ps| && p <= q ==> ps[q] == []
  }

  /** What was due and is due no more, though nobody stopped it, was called since. */
  lemma {:induction false} DueIsCalled(log: seq<Entry>, n: nat, w: Watcher) returns (i: nat)
    requires n <= |log| && w in Replay(log[..n]) && w !in Replay(log) && NoClears(log, n)
    ensures n <= i < |log| && Takes(log[i], w) && (log[i].Called? || log[i].OnceRun?)
    decreases |log|
  {
    assert log[..|log|] == log;
    var last := |log| - 1;
    if w in Replay(log[..last]) {
      i := last;
    } else {
      assert log[..last][..n] == log[..n];
      i := DueIsCalled(log[..last], n, w);
    }
  }

  /** A watcher as a callback knows it: one from before, or the k-th that was allocated
      by callbacks. */
  datatype Ref = Known(w: Watcher) | Made(k: nat)

  /** What a callback does to the queue before it returns: any watcher may be fed or
      stopped, watchers and ev_once records may be allocated, and the queue may be
      drained from within. */
  datatype Act =
    | Feeds(of: Ref, events: Events)
    | Stops(of: Ref)
    | Allocates(priority: int)
    | CallsOnce(timeout: int)
    | Invokes

  /** pri_adjust */
  function Clamped(priority: int): (p: int)
    ensures MINPRI <= p <= MAXPRI && (MINPRI <= priority <= MAXPRI ==> p == priority)
    ensures (priority < -2 ==> p == -2) && (priority > 2 ==> p == 2)
  {
    if priority < MINPRI then MINPRI else if priority > MAXPRI then MAXPRI else priority
  }

  /** No callback stops a watcher. */
  predicate NoStops(script: seq<seq<Act>>) {
    forall i, j {:trigger script[i][j]} :: 0 <= i < |script| && 0 <= j < |script[i]| ==> !script[i][j].Stops?
  }

  lemma Gentle(acts: seq<Act>, script: seq<seq<Act>>)
    ensures NoStops([acts] + script) ==> NoStops(script) && forall j {:trigger acts[j]} :: 0 <= j < |acts| ==>
      !acts[j].Stops?
  {
    var all := [acts] + script;
    assert forall j {:trigger acts[j]} :: 0 <= j < |acts| ==> all[0][j] == acts[j];
    assert forall i, j {:trigger script[i][j]} :: 0 <= i < |script| && 0 <= j < |script[i]| ==>
      all[i + 1][j] == script[i][j];
  }

  /** One thing that a callback did: the callback with `left` of the script behind it, the live
      watcher that was meant, if any, and where in the history it is told. */
  datatype Deed = Deed(left: nat, act: Act, on: Option<Watcher>, at: nat)

  /** The watcher that an act is about, if there is one yet. */
  function Meant(act: Act, made: seq<Watcher>): Option<Watcher> {
    if !act.Feeds? && !act.Stops? then None
    else match act.of
      case Known(w) => Some(w)
      case Made(k) => if k < |made| then Some(made[k]) else None
  }

  /** What a deed adds to the history. */
  function Added(d: Deed): seq<Entry> {
    match d.on
    case None => []
    case Some(w) =>
      if d.act.Feeds? then [Fed(w, d.act.events)] else if d.act.Stops? then [Cleared(w)] else []
  }

  /** All that one callback did, in order. */
  function ActsOf(deeds: seq<Deed>, left: nat): seq<Act> {
    if deeds == [] then []
    else
      var last := deeds[|deeds| - 1];
      ActsOf(deeds[..|deeds| - 1], left) + if last.left == left then [last.act] else []
  }

  lemma {:induction false} ActsOfBoth(a: seq<Deed>, b: seq<Deed>, left: nat)
    ensures ActsOf(a + b, left) == ActsOf(a, left) + ActsOf(b, left)
    decreases |b|
  {
    if b == [] {
      assert a + b == a;
    } else {
      assert (a + b)[..|a + b| - 1] == a + b[..|b| - 1];
      ActsOfBoth(a, b[..|b| - 1], left);
    }
  }

  /** Each callback did what the script says, as far as it was used. */
  ghost predicate Follows(script: seq<seq<Act>>, rest: seq<seq<Act>>, deeds: seq<Deed>) {
    && |rest| <= |script| && rest == script[|script| - |rest|..]
    && forall left: nat {:trigger ActsOf(deeds, left)} ::
      ActsOf(deeds, left) == if |rest| <= left < |script| then script[|script| - 1 - left] else []
  }

  /** First some of it, then some more. */
  lemma FollowsBoth(script: seq<seq<Act>>, mid: seq<seq<Act>>, rest: seq<seq<Act>>, a: seq<Deed>, b: seq<Deed>)
    requires Follows(script, mid, a) && Follows(mid, rest, b)
    ensures Follows(script, rest, a + b)
  {
    forall left: nat
      ensures ActsOf(a + b, left) == if |rest| <= left < |script| then script[|script| - 1 - left] else []
    {
      ActsOfBoth(a, b, left);
      assert left < |mid| ==> mid[|mid| - 1 - left] == script[|script| - 1 - left];
    }
  }

  /** The callback at the head of the script did one thing more, after others had their turn. */
  lemma FollowsOne(acts: seq<Act>, act: Act, script: seq<seq<Act>>, rest: seq<seq<Act>>, deeds: seq<Deed>, d: Deed)
    requires Follows([acts] + script, rest, deeds) && |rest| <= |script| && d.left == |script| && d.act == act
    ensures Follows([acts + [act]] + script, rest, deeds + [d])
  {
    var was, now := [acts] + script, [acts + [act]] + script;
    forall left: nat
      ensures ActsOf(deeds + [d], left) == if |rest| <= left < |now| then now[|now| - 1 - left] else []
    {
      assert (deeds + [d])[..|deeds|] == deeds;
      assert left < |script| ==> now[|now| - 1 - left] == was[|was| - 1 - left];
    }
  }

  /** How often a callback was entered. */
  function Calls(log: seq<Entry>): nat {
    if log == [] then 0
    else Calls(log[..|log| - 1]) + if log[|log| - 1].Called? || log[|log| - 1].OnceRun? then 1 else 0
  }

  lemma CallsMore(log: seq<Entry>, e: Entry)
    ensures Calls(log + [e]) == Calls(log) + if e.Called? || e.OnceRun? then 1 else 0
  {
    assert (log + [e])[..|log|] == log;
  }

  /** While the callbacks entered grew from n to m in number, each took its part of the script. */
  predicate Uses(script: seq<seq<Act>>, rest: seq<seq<Act>>, n: nat, m: nat) {
    n <= m && |rest| == if m - n <= |script| then |script| - (m - n) else 0
  }

  /** The act is to feed or stop a watcher, and that may be w. */
  predicate Concerns(act: Act, w: Watcher) {
    (act.Feeds? || act.Stops?) && (act.of.Known? ==> act.of.w == w)
  }

  /** The history tells of the deed at its place, which is not before n. */
  ghost predicate ToldAt(log: seq<Entry>, n: nat, d: Deed) {
    n <= d.at && (d.on.Some? ==>
      && Concerns(d.act, d.on.value) && d.at < |log|
      && log[d.at] == if d.act.Feeds? then Fed(d.on.value, d.act.events) else Cleared(d.on.value))
  }

  ghost predicate Told(log: seq<Entry>, n: nat, deeds: seq<Deed>) {
    forall k {:trigger deeds[k]} :: 0 <= k < |deeds| ==> ToldAt(log, n, deeds[k])
  }

  /** What was told is told still when the history has grown. */
  lemma ToldBoth(was: seq<Entry>, log: seq<Entry>, n: nat, m: nat, a: seq<Deed>, b: seq<Deed>)
    requires was <= log && n <= m && Told(was, n, a) && Told(log, m, b)
    ensures Told(log, n, a + b)
  {
    forall k | 0 <= k < |a + b| ensures ToldAt(log, n, (a + b)[k]) {
      if k < |a| {
        assert ToldAt(was, n, a[k]);
      } else {
        assert ToldAt(log, m, b[k - |a|]);
      }
    }
  }

  /** What the deed of the callback with `left` behind it comes to in the history. */
  lemma OneTold(log: seq<Entry>, d: Deed)
    requires d.at == |log| && (d.on.Some? ==> Concerns(d.act, d.on.value))
    ensures Told(log + Added(d), |log|, [d]) && Calls(log + Added(d)) == Calls(log)
  {
    if d.on.Some? {
      CallsMore(log, Added(d)[0]);
    } else {
      assert log + [] == log;
    }
  }

  /** From the history log0 to log the callbacks did what the script says but for the rest, and
      these are their deeds. */
  ghost predicate Ran(script: seq<seq<Act>>, rest: seq<seq<Act>>, deeds: seq<Deed>, log0: seq<Entry>, log: seq<Entry>) {
    && log0 <= log && Follows(script, rest, deeds) && Uses(script, rest, Calls(log0), Calls(log))
    && Told(log, |log0|, deeds)
  }

  lemma RanBoth(script: seq<seq<Act>>, mid: seq<seq<Act>>, rest: seq<seq<Act>>, a: seq<Deed>, b: seq<Deed>,
      log0: seq<Entry>, log1: seq<Entry>, log2: seq<Entry>)
    requires Ran(script, mid, a, log0, log1) && Ran(mid, rest, b, log1, log2)
    ensures Ran(script, rest, a + b, log0, log2)
  {
    FollowsBoth(script, mid, rest, a, b);
    ToldBoth(log1, log2, |log0|, |log1|, a, b);
  }

  /** When a watcher known from before was meant and nothing was done, it is not live. */
  ghost predicate Missed(alive: set<Watcher>, d: Deed) {
    d.on.None? && (d.act.Feeds? || d.act.Stops?) && d.act.of.Known? ==> d.act.of.w !in alive
  }

  ghost predicate NoneMissed(alive: set<Watcher>, deeds: seq<Deed>) {
    forall k {:trigger deeds[k]} :: 0 <= k < |deeds| ==> Missed(alive, deeds[k])
  }

  /** From the entry n on nothing was cleared. */
  ghost predicate NoClears(log: seq<Entry>, n: nat) {
    forall i {:trigger log[i]} :: n <= i < |log| ==> !log[i].Cleared?
  }

  /** No record's callback is entered twice. */
  ghost predicate OnceOnly(log: seq<Entry>) {
    forall i, j {:trigger log[i], log[j]} :: 0 <= i < j < |log| && log[i].OnceRun? && log[j].OnceRun? ==>
      log[i].once != log[j].once
  }

  /** Live once records own their two watchers; a record that ran is not live. */
  ghost predicate Records(alive: set<Watcher>, owner: map<Watcher, Once>, log: seq<Entry>) {
    && (forall w {:trigger w in owner} :: w in owner ==>
      var o := owner[w];
      (w == o.io || w == o.to) && o.io != o.to && o.io in alive && o.to in alive
      && o.io in owner && o.to in owner && owner[o.io] == o && owner[o.to] == o)
    && OnceOnly(log)
    && (forall i {:trigger log[i]} :: 0 <= i < |log| && log[i].OnceRun? ==>
      log[i].once.io !in alive && log[i].once.to !in alive)
  }

  /** One more entry that is not a once callback leaves the records as they are. */
  lemma RecordsStay(alive: set<Watcher>, owner: map<Watcher, Once>, log: seq<Entry>, e: Entry)
    requires Records(alive, owner, log) && !e.OnceRun?
    ensures Records(alive, owner, log + [e])
  {
  }

  /** A record whose callback is entered is not live any more. */
  lemma RecordRuns(alive: set<Watcher>, owner: map<Watcher, Once>, log: seq<Entry>, o: Once, events: Events)
    requires Records(alive, owner, log) && o.io in owner && owner[o.io] == o
    ensures Records(alive - {o.io, o.to}, owner - {o.io, o.to}, log + [OnceRun(o, events)])
  {
    assert o.to in owner && owner[o.to] == o;
    forall w | w in owner - {o.io, o.to} ensures owner[w].io !in {o.io, o.to} && owner[w].to !in {o.io, o.to} {
      assert owner[w] != o;
    }
  }

  class Pendings {
    var pendings: seq<seq<Slot>>  // pendingcnt[p] is |pendings[p]|
    var pendingpri: nat
    const dummy: Watcher          // pending_w: stands in for watchers taken out
    var alive: set<Watcher>       // the watchers that are allocated
    var owner: map<Watcher, Once> // the once record a watcher is part of
    var made: seq<Watcher>        // the watchers that callbacks have allocated
    ghost var log: seq<Entry>
    ghost var due: Table          // the abstract value: what is due

    /** Slots name live watchers that know the slot, and the other way round. */
    ghost predicate Valid()
      reads `pendings, `alive, `due, alive`pending
    {
      && |pendings| == NUMPRI
      && dummy !in alive
      && (forall p: nat, k: nat {:trigger pendings[p][k]} :: p < NUMPRI && k < |pendings[p]| ==>
        SlotOk(pendings[p][k], p, k))
      && (forall w {:trigger w in due} {:trigger w in alive} :: w in alive ==> WatcherOk(w))
      && (forall w {:trigger w in due} :: w in due ==> w in alive)
    }

    ghost predicate SlotOk(s: Slot, p: nat, k: nat)
      reads `alive, alive`pending
    {
      s.w == dummy || (s.w in alive && s.w.pending == k + 1 && AbsPri(s.w.priority) == p)
    }

    /** w's index leads to its slot, and the slot has what is due. */
    ghost predicate WatcherOk(w: Watcher)
      requires |pendings| == NUMPRI
      reads `pendings, `due, w`pending
    {
      && MINPRI <= w.priority <= MAXPRI
      && (w in due <==> w.pending != 0)
      && (w.pending != 0 ==>
        var q := pendings[AbsPri(w.priority)];
        w.pending <= |q| && q[w.pending - 1] == Slot(w, due[w]))
    }

    /** The history explains the present and is lawful. */
    ghost predicate Faithful()
      reads `due, `log
    {
      Replay(log) == due && Lawful(log)
    }

    ghost predicate Owned()
      reads `alive, `owner, `log
    {
      Records(alive, owner, log)
    }

    ghost predicate Ready()
      reads `pendings, `alive, `owner, `due, `log, alive`pending
    {
      Valid() && Faithful() && Owned()
    }

    constructor ()
      ensures Ready() && fresh(dummy)
      ensures alive == {} && owner == map[] && log == [] && due == map[]
      ensures forall p :: 0 <= p < NUMPRI ==> pendings[p] == []
    {
      pendings, pendingpri, alive, owner, made := [[], [], [], [], []], 0, {}, map[], [];
      log, due := [], map[];
      dummy := new Watcher(0, 0, 0);
    }

    /** ev_init and what the user sets before the start. */
    method NewWatcher(priority: int, at: int, repeat: int) returns (w: Watcher)
      requires Valid() && Owned() && MINPRI <= priority <= MAXPRI
      modifies `alive
      ensures Valid() && Owned() && fresh(w) && w !in owner && alive == old(alive) + {w}
      ensures w.active == 0 && w.pending == 0 && w.priority == priority && w.at == at && w.repeat == repeat
    {
      w := new Watcher(priority, at, repeat);
      assert w !in owner && w !in due;
      alive := alive + {w};
    }

    /** The record that ev_once allocates: two watchers of priority 0. */
    method NewOnce(timeout: int) returns (o: Once)
      requires Valid() && Owned()
      modifies `alive, `owner
      ensures Valid() && Owned() && fresh(o.io) && fresh(o.to) && o.io.priority == o.to.priority == 0
      ensures alive == old(alive) + {o.io, o.to} && owner == old(owner)[o.io := o][o.to := o]
    {
      var io := NewWatcher(0, 0, 0);
      var to := NewWatcher(0, timeout, 0);
      o := Once(io, to);
      Own(o);
    }

    method Own(o: Once)
      requires Valid() && Owned() && o.io != o.to && o.io in alive && o.to in alive
      requires o.io !in owner && o.to !in owner
      modifies `owner
      ensures Valid() && Owned() && owner == old(owner)[o.io := o][o.to := o]
    {
      owner := owner[o.io := o][o.to := o];
    }

    /** w is queued already: its events are added to those of its slot. */
    method OrInto(w: Watcher, revents: Events)
      requires Valid() && w in alive && w.pending != 0
      modifies `pendings, `due, `log
      ensures Valid() && due == old(Apply(due, Fed(w, revents)))
      ensures log == old(log) + [Fed(w, revents)]
    {
      var pri := AbsPri(w.priority);
      var q := pendings[pri];
      var s := q[w.pending - 1];
      pendings := pendings[pri := q[w.pending - 1 := s.(events := s.events + revents)]];
      due, log := Apply(due, Fed(w, revents)), log + [Fed(w, revents)];
    }

    /** w gets a slot of its own. */
    method Append(w: Watcher, revents: Events)
      requires Valid() && w in alive && w.pending == 0
      modifies `pendings, `due, `log, w`pending
      ensures log == old(log) + [Fed(w, revents)]
      ensures Valid() && due == old(Apply(due, Fed(w, revents)))
      ensures pendings == old(pendings[AbsPri(w.priority) := pendings[AbsPri(w.priority)] + [Slot(w, revents)]])
      ensures w.pending == old(|pendings[AbsPri(w.priority)]|) + 1
    {
      var pri := AbsPri(w.priority);
      var q := pendings[pri] + [Slot(w, revents)];
      assert w !in due && WatcherOk(w);
      pendings := pendings[pri := q];
      w.pending := |q|;
      due, log := Apply(due, Fed(w, revents)), log + [Fed(w, revents)];
      assert {} + revents == revents;
    }

    /** What feeding w comes to: its events are due, in its slot or a new one. */
    twostate predicate Received(w: Watcher, revents: Events)
      reads `pendings, `pendingpri, `log, `due, w`pending
    {
      var pri := AbsPri(w.priority);
      && pendingpri == NUMPRI - 1
      && due == Apply(old(due), Fed(w, revents)) && log == old(log) + [Fed(w, revents)]
      && (old(w.pending) == 0 && 0 <= pri < |old(pendings)| ==>
        && pendings == old(pendings)[pri := old(pendings)[pri] + [Slot(w, revents)]]
        && w.pending == |old(pendings)[pri]| + 1)
      && (old(w.pending) != 0 ==> w.pending == old(w.pending))
    }

    /** Into the watcher's slot, or a new one. */
    method Put(w: Watcher, revents: Events)
      requires Valid() && w in alive
      modifies `pendings, `pendingpri, `log, `due, w`pending
      ensures Valid() && Received(w, revents)
    {
      pendingpri := NUMPRI - 1;
      if w.pending != 0 {
        OrInto(w, revents);
      } else {
        Append(w, revents);
      }
    }

    /** ev_feed_event */
    method Feed(w: Watcher, revents: Events)
      requires Ready() && w in alive
      modifies `pendings, `pendingpri, `log, `due, w`pending
      ensures Ready() && Received(w, revents)
    {
      Extend(log, Fed(w, revents));
      RecordsStay(alive, owner, log, Fed(w, revents));
      Put(w, revents);
    }

    /** Of those that got a slot of their own, the earlier in the list has the later slot. */
    ghost predicate SlotsReversed(d0: Table, rfeeds: seq<Watcher>, n: nat)
      reads rfeeds`pending
    {
      forall j, k {:trigger rfeeds[j], rfeeds[k]} ::
        (n <= j < k < |rfeeds| && rfeeds[j] !in d0 && rfeeds[k] !in d0 && rfeeds[j].priority == rfeeds[k].priority)
        ==> rfeeds[k].pending < rfeeds[j].pending
    }

    /** feed_reverse_done, one watcher. */
    method FeedBack(rfeeds: seq<Watcher>, n: nat, revents: Events, ghost d0: Table, ghost d: Table)
      requires Ready() && n < |rfeeds| && (forall k {:trigger rfeeds[k]} :: n <= k < |rfeeds| ==> rfeeds[k] in alive)
      requires forall k {:trigger rfeeds[k]} :: n < k < |rfeeds| ==> rfeeds[n] != rfeeds[k] && rfeeds[k] in due
      requires rfeeds[n] in due <==> rfeeds[n] in d0
      requires SlotsReversed(d0, rfeeds, n + 1)
      requires d == Apply(due, Fed(rfeeds[n], revents))
      modifies `pendings, `pendingpri, `log, `due, {rfeeds[n]}`pending
      ensures Ready() && SlotsReversed(d0, rfeeds, n)
      ensures due == d && old(log) <= log
    {
      var w := rfeeds[n];
      assert WatcherOk(w);
      assert forall k {:trigger rfeeds[k]} :: n < k < |rfeeds| ==> WatcherOk(rfeeds[k]);
      Feed(w, revents);
    }

    /** One round of feed_reverse_done. */
    method FeedNext(rfeeds: seq<Watcher>, ghost n: nat, m: nat, revents: Events, ghost d0: Table)
      requires Ready() && n == m + 1 <= |rfeeds|
      requires forall k {:trigger rfeeds[k]} :: 0 <= k < |rfeeds| ==> rfeeds[k] in alive
      requires forall j, k {:trigger rfeeds[j], rfeeds[k]} :: 0 <= j < k < |rfeeds| ==> rfeeds[j] != rfeeds[k]
      requires due == FedFrom(d0, rfeeds, n, revents) && SlotsReversed(d0, rfeeds, n)
      modifies `pendings, `pendingpri, `log, `due, {rfeeds[m]}`pending
      ensures Ready() && due == FedFrom(d0, rfeeds, m, revents) && SlotsReversed(d0, rfeeds, m)
      ensures old(log) <= log
    {
      FedFromIs(d0, rfeeds, n, revents);
      FedFromNext(d0, rfeeds, n, m, revents, due);
      ghost var d := FedFrom(d0, rfeeds, m, revents);
      FeedBack(rfeeds, m, revents, d0, d);
    }

    /** feed_reverse_done: feeds the list from its back. */
    method FeedReverseDone(rfeeds: seq<Watcher>, revents: Events)
      requires Ready() && rfeeds != []
      requires forall k {:trigger rfeeds[k]} :: 0 <= k < |rfeeds| ==> rfeeds[k] in alive
      requires forall j, k {:trigger rfeeds[j], rfeeds[k]} :: 0 <= j < k < |rfeeds| ==> rfeeds[j] != rfeeds[k]
      modifies `pendings, `pendingpri, `log, `due, rfeeds`pending
      ensures Ready() && due == FedFrom(old(due), rfeeds, 0, revents) && SlotsReversed(old(due), rfeeds, 0)
      ensures old(log) <= log
    {
      var n: nat := |rfeeds|;
      while n > 0
        invariant n <= |rfeeds| && Ready() && old(log) <= log
        invariant due == FedFrom(old(due), rfeeds, n, revents) && SlotsReversed(old(due), rfeeds, n)
      {
        var m := n - 1;
        FeedNext(rfeeds, n, m, revents, old(due));
        n := m;
      }
    }

    /** w's slot, if it has one, is handed to the dummy. */
    method TakeOut(w: Watcher) returns (events: Events)
      requires Valid() && w in alive
      modifies `pendings, `due, w`pending
      ensures Valid() && w.pending == 0
      ensures events == old(EventsOf(due, w)) && due == old(due) - {w}
      ensures SameLengths(pendings, old(pendings))
      ensures old(w.pending) == 0 ==> pendings == old(pendings)
    {
      events := {};
      if w.pending != 0 {
        var pri := AbsPri(w.priority);
        var s := pendings[pri][w.pending - 1];
        pendings := pendings[pri := pendings[pri][w.pending - 1 := s.(w := dummy)]];
        w.pending := 0;
        events := s.events;
      }
      due := due - {w};
    }

    /** ev_clear_pending */
    method ClearPending(w: Watcher) returns (events: Events)
      requires Ready() && w in alive
      modifies `pendings, `log, `due, w`pending
      ensures Ready() && w.pending == 0
      ensures events == old(EventsOf(due, w)) && due == old(due) - {w}
      ensures log == old(log) + [Cleared(w)]
      ensures SameLengths(pendings, old(pendings))
      ensures old(w.pending) == 0 ==> pendings == old(pendings)
    {
      Extend(log, Cleared(w));
      RecordsStay(alive, owner, log, Cleared(w));
      log := log + [Cleared(w)];
      events := TakeOut(w);
    }

    lemma LastSlot(p: nat)
      requires Valid() && p < NUMPRI && pendings[p] != []
      ensures var s := pendings[p][|pendings[p]| - 1];
        s.w == dummy || (
          && s.w in alive && s.w.pending == |pendings[p]| && s.w in due && due[s.w] == s.events
          && AbsPri(s.w.priority) == p)
      ensures dummy !in due
    {
      var s := pendings[p][|pendings[p]| - 1];
      assert SlotOk(s, p, |pendings[p]| - 1);
      assert s.w in alive ==> WatcherOk(s.w);
    }

    /** Takes the last slot off the queue of priority p. */
    method PopLast(p: nat) returns (s: Slot)
      requires Valid() && p < NUMPRI && pendings[p] != []
      modifies `pendings, `due, pendings[p][|pendings[p]| - 1].w`pending
      ensures Valid() && s == old(pendings[p][|pendings[p]| - 1]) && due == old(due) - {s.w}
      ensures pendings == old(pendings[p := pendings[p][..|pendings[p]| - 1]])
    {
      var q := pendings[p];
      s := q[|q| - 1];
      LastSlot(p);
      pendings, due := pendings[p := q[..|q| - 1]], due - {s.w};
      s.w.pending := 0;
      assert forall v {:trigger v in alive} :: v in alive && v != s.w ==> WatcherOk(v);
    }

    /** With nothing queued above p, what is due has at most priority p. */
    lemma DueBelow(p: nat)
      requires Valid() && p < NUMPRI && EmptyFrom(pendings, p + 1)
      ensures forall v :: v in due ==> AbsPri(v.priority) <= p
    {
      forall v | v in due ensures AbsPri(v.priority) <= p {
        assert WatcherOk(v);
        var _ := pendings[AbsPri(v.priority)];
      }
    }

    /** Who sits where at this moment. */
    ghost function Now(): Moment
      reads `log, `due, due.Keys`pending
    {
      Moment(|log|, map w {:trigger w in due} | w in due :: w.pending)
    }

    /** What was due of w at the moment m, and was not taken since, is in the same slot. */
    ghost predicate InPlace(m: Moment, w: Watcher)
      requires w in m.seats
      reads `log, `due, w`pending
    {
      Untaken(log, m.n, |log|, w) ==> w in due && w.pending == m.seats[w]
    }

    /** Everybody is in place, and was called in turn. */
    ghost predicate Order(m: Moment)
      reads `log, `due, m.seats.Keys`pending
    {
      && m.n <= |log| && InOrder(log, m)
      && forall w {:trigger w in m.seats} :: w in m.seats ==> InPlace(m, w)
    }

    /** The same but for x, whose turn it is. */
    ghost predicate OrderBut(m: Moment, x: Watcher)
      reads `log, `due, m.seats.Keys`pending
    {
      && m.n <= |log| && InOrder(log, m) && IsNext(log, |log|, m, x)
      && forall w {:trigger w in m.seats} :: w in m.seats && w != x ==> InPlace(m, w)
    }

    /** The last slot of a queue belongs to somebody whose turn it is. */
    lemma LastIsNext(m: Moment, p: nat)
      requires Valid() && Order(m) && p < NUMPRI && pendings[p] != []
      ensures IsNext(log, |log|, m, pendings[p][|pendings[p]| - 1].w)
    {
      var x := pendings[p][|pendings[p]| - 1].w;
      assert SlotOk(pendings[p][|pendings[p]| - 1], p, |pendings[p]| - 1);
      if x in m.seats && Untaken(log, m.n, |log|, x) {
        assert InPlace(m, x) && WatcherOk(x);
        forall v | v in m.seats && m.Behind(x, v) ensures !Untaken(log, m.n, |log|, v) {
          assert InPlace(m, v) && (v in due ==> WatcherOk(v));
        }
      }
    }

    /** One more entry: those it does not take are in place as before. */
    lemma OneMore(m: Moment, was: seq<Entry>, e: Entry)
      requires log == was + [e] && m.n <= |was| && InOrder(was, m)
      requires TurnOf(was, |was|, m, e)
      requires forall w {:trigger w in m.seats} :: w in m.seats && !Takes(e, w) && Untaken(was, m.n, |was|, w) ==>
        w in due && w.pending == m.seats[w]
      ensures Order(m)
    {
      OrderExtends(was, e, m);
      UntakenThen(was, e, m.n);
    }

    /** once_cb: the popped watcher's record takes what is due of the other one, and is
        freed before its callback is entered. */
    method RunOnce(s: Slot, ghost d: Table, ghost m: Moment)
      requires Valid() && Owned() && s.w in owner && OrderBut(m, s.w)
      requires Highest(d, s.w) && d[s.w] == s.events && due == d - {s.w}
      requires Replay(log) == d && Lawful(log)
      modifies `pendings, `due, `log, `alive, `owner, owner[s.w].io`pending, owner[s.w].to`pending
      ensures Ready() && Order(m)
      ensures log == old(log + [OnceRun(owner[s.w], EventsOf(d, owner[s.w].io) + EventsOf(d, owner[s.w].to))])
      ensures alive <= old(alive) && owner.Keys <= old(owner.Keys)
      ensures SameLengths(pendings, old(pendings))
    {
      var o := owner[s.w];
      var other := if s.w == o.io then o.to else o.io;
      var events := TakeOut(other);
      BothTaken(d, o, s.w, s.events, events);
      Extend(log, OnceRun(o, s.events + events));
      assert log[..|log|] == log;
      Retire(o, s.events + events, m);
    }

    /** ev_free of a record neither of whose watchers is queued, and the entry of its callback. */
    method Retire(o: Once, ghost events: Events, ghost m: Moment)
      requires Valid() && Owned() && o.io in owner && owner[o.io] == o
      requires o.io !in due && o.to !in due
      requires m.n <= |log| && InOrder(log, m) && TurnOf(log, |log|, m, OnceRun(o, events))
      requires forall w {:trigger w in m.seats} :: w in m.seats && w != o.io && w != o.to ==> InPlace(m, w)
      modifies `alive, `owner, `log
      ensures Valid() && Owned() && Order(m)
      ensures alive == old(alive) - {o.io, o.to} && owner == old(owner) - {o.io, o.to}
      ensures log == old(log) + [OnceRun(o, events)]
    {
      RecordRuns(alive, owner, log, o, events);
      assert forall w {:trigger w in m.seats} :: w in m.seats && w != o.io && w != o.to ==> InPlace(m, w);
      alive, owner, log := alive - {o.io, o.to}, owner - {o.io, o.to}, log + [OnceRun(o, events)];
      OneMore(m, old(log), OnceRun(o, events));
    }

    /** Enters the callback of a plain watcher. */
    method Call(s: Slot, ghost d: Table, ghost m: Moment)
      requires Valid() && Owned() && Replay(log) == d && Lawful(log) && OrderBut(m, s.w)
      requires Highest(d, s.w) && d[s.w] == s.events && due == d - {s.w}
      modifies `log
      ensures Ready() && Order(m) && log == old(log) + [Called(s.w, s.events)]
    {
      Extend(log, Called(s.w, s.events));
      RecordsStay(alive, owner, log, Called(s.w, s.events));
      log := log + [Called(s.w, s.events)];
      OneMore(m, old(log), Called(s.w, s.events));
    }

    /** Enters the callback of a slot just taken off. */
    method Dispatch(s: Slot, ghost d: Table, ghost m: Moment)
      requires Valid() && Owned() && Replay(log) == d && Lawful(log)
      requires if s.w == dummy then due == d else Highest(d, s.w) && d[s.w] == s.events && due == d - {s.w}
      requires s.w == dummy || s.w in alive
      requires if s.w == dummy then Order(m) else OrderBut(m, s.w)
      modifies `pendings, `due, `log, `alive, `owner, alive`pending
      ensures Ready() && Order(m)
      ensures SameLengths(pendings, old(pendings))
      ensures alive <= old(alive) && old(log) <= log && NoClears(log, |old(log)|)
      ensures s.w == dummy ==> log == old(log)
      ensures Calls(log) == Calls(old(log)) + if s.w == dummy then 0 else 1
    {
      if s.w in owner {
        CallsMore(log, OnceRun(owner[s.w], EventsOf(d, owner[s.w].io) + EventsOf(d, owner[s.w].to)));
        RunOnce(s, d, m);
      } else if s.w != dummy {
        CallsMore(log, Called(s.w, s.events));
        Call(s, d, m);
      }
    }

    /** PopLast, and what it means for the order. */
    method PopNext(p: nat, ghost m: Moment) returns (s: Slot)
      requires Valid() && p < NUMPRI && pendings[p] != [] && Order(m)
      modifies `pendings, `due, pendings[p][|pendings[p]| - 1].w`pending
      ensures Valid() && s == old(pendings[p][|pendings[p]| - 1])
      ensures pendings == old(pendings[p := pendings[p][..|pendings[p]| - 1]])
      ensures s.w == dummy ==> due == old(due)
      ensures s.w != dummy ==>
        && s.w in alive && s.w in old(due) && old(due[s.w]) == s.events && AbsPri(s.w.priority) == p
        && due == old(due) - {s.w}
      ensures if s.w == dummy then Order(m) else OrderBut(m, s.w)
    {
      LastIsNext(m, p);
      LastSlot(p);
      s := PopLast(p);
      assert forall w {:trigger w in m.seats} :: w in m.seats ==> old(InPlace(m, w));
    }

    /** Takes the last slot of priority p and enters the callback of its watcher; the dummy
        has none. */
    method Enter(p: nat, ghost m: Moment) returns (entered: bool)
      requires Ready() && Order(m)
      requires p < NUMPRI && pendings[p] != [] && EmptyFrom(pendings, p + 1)
      modifies `pendings, `due, `log, `alive, `owner, alive`pending, dummy`pending
      ensures Ready() && Order(m)
      ensures SlotCount(pendings) == old(SlotCount(pendings)) - 1 && EmptyFrom(pendings, p + 1)
      ensures alive <= old(alive) && old(log) <= log && NoClears(log, |old(log)|)
      ensures !entered ==> log == old(log)
      ensures Calls(log) == Calls(old(log)) + if entered then 1 else 0
    {
      DueBelow(p);
      ghost var d := due;
      SlotCountUpdate(pendings, p, pendings[p][..|pendings[p]| - 1]);
      var s := PopNext(p, m);
      ghost var ps := pendings;
      Dispatch(s, d, m);
      SameCount(pendings, ps);
      entered := s.w != dummy;
    }

    /** What holds whenever a callback runs: the queue is sound, nothing waits above the
        priority in hand, and the order since m is kept. */
    ghost predicate Steady(m: Moment)
      reads `pendings, `pendingpri, `alive, `owner, `due, `log, alive`pending, m.seats.Keys`pending
    {
      Ready() && Order(m) && EmptyFrom(pendings, pendingpri + 1) && pendingpri < NUMPRI
    }

    /** ev_feed_event from within a callback. */
    method FeedInside(w: Watcher, events: Events, ghost m: Moment)
      requires Steady(m) && w in alive
      modifies `pendings, `pendingpri, `due, `log, w`pending
      ensures Steady(m) && log == old(log) + [Fed(w, events)]
    {
      ghost var e := Fed(w, events);
      assert WatcherOk(w);
      Feed(w, events);
      assert forall v {:trigger v in m.seats} :: v in m.seats ==> old(InPlace(m, v));
      OneMore(m, old(log), e);
    }

    /** ev_clear_pending from within a callback. */
    method ClearInside(w: Watcher, ghost m: Moment)
      requires Steady(m) && w in alive
      modifies `pendings, `due, `log, w`pending
      ensures Steady(m) && log == old(log) + [Cleared(w)]
    {
      var _ := ClearPending(w);
      assert forall v {:trigger v in m.seats} :: v in m.seats ==> old(InPlace(m, v));
      OneMore(m, old(log), Cleared(w));
    }

    /** ev_feed_event and ev_clear_pending from within a callback, on any live watcher. */
    method Touch(act: Act, w: Watcher, ghost m: Moment)
      requires Steady(m) && (act.Feeds? || act.Stops?) && w in alive
      modifies `pendings, `pendingpri, `due, `log, w`pending
      ensures Steady(m)
      ensures log == old(log) + [if act.Feeds? then Fed(w, act.events) else Cleared(w)]
    {
      if act.Feeds? {
        FeedInside(w, act.events, m);
      } else {
        ClearInside(w, m);
      }
    }

    /** The watchers that are allocated are those that were, or new. */
    twostate predicate OnlyNew()
      reads `alive
    {
      forall w {:trigger w in alive} :: w in alive ==> w in old(alive) || fresh(w)
    }

    /** A watcher allocated by a callback. */
    method MakeWatcher(priority: int, ghost m: Moment) returns (w: Watcher)
      requires Steady(m)
      modifies `alive, `made
      ensures Steady(m) && OnlyNew() && made == old(made) + [w]
      ensures fresh(w) && alive == old(alive) + {w} && w.priority == Clamped(priority)
    {
      w := NewWatcher(Clamped(priority), 0, 0);
      assert Faithful() && Order(m);
      made := made + [w];
    }

    /** An ev_once record allocated by a callback. */
    method OnceInside(timeout: int, ghost m: Moment) returns (o: Once)
      requires Steady(m)
      modifies `alive, `owner
      ensures Steady(m) && OnlyNew() && fresh(o.io) && fresh(o.to) && o.io.priority == o.to.priority == 0
      ensures alive == old(alive) + {o.io, o.to} && owner == old(owner)[o.io := o][o.to := o]
    {
      o := NewOnce(timeout);
      assert Faithful() && Order(m);
    }

    method MakeOnce(timeout: int, ghost m: Moment) returns (o: Once)
      requires Steady(m)
      modifies `alive, `owner, `made
      ensures Steady(m) && OnlyNew() && made == old(made) + [o.io, o.to]
      ensures fresh(o.io) && fresh(o.to) && o.io.priority == o.to.priority == 0
      ensures alive == old(alive) + {o.io, o.to} && owner == old(owner)[o.io := o][o.to := o]
    {
      o := OnceInside(timeout, m);
      made := made + [o.io, o.to];
    }

    /** The live watcher that an act is about. */
    ghost function Target(act: Act): Option<Watcher>
      reads `made, `alive
    {
      var w := Meant(act, made);
      if w.Some? && w.value in alive then w else None
    }

    /** One thing a callback does, but for a drain. */
    method Perform(act: Act, ghost left: nat, ghost m: Moment) returns (ghost d: Deed)
      requires Steady(m) && !act.Invokes?
      modifies `pendings, `pendingpri, `due, `log, `alive, `owner, `made, alive`pending
      ensures Steady(m) && OnlyNew() && old(log) <= log
      ensures !act.Stops? ==> NoClears(log, |old(log)|)
      ensures d == Deed(left, act, old(Target(act)), |old(log)|) && log == old(log) + Added(d)
      ensures old(made) <= made
      ensures |made| == |old(made)| + if act.Allocates? then 1 else if act.CallsOnce? then 2 else 0
      ensures forall k {:trigger made[k]} :: |old(made)| <= k < |made| ==>
        fresh(made[k]) && made[k] in alive && made[k].priority == if act.Allocates? then Clamped(act.priority) else 0
      ensures !act.Allocates? && !act.CallsOnce? ==> alive == old(alive) && owner == old(owner)
      ensures Missed(alive, d)
    {
      d := Deed(left, act, Target(act), |log|);
      if act.Allocates? {
        var _ := MakeWatcher(act.priority, m);
      } else if act.CallsOnce? {
        var _ := MakeOnce(act.timeout, m);
      } else if act.of.Known? || act.of.k < |made| {
        var w := if act.of.Known? then act.of.w else made[act.of.k];
        if w in alive {
          Touch(act, w, m);
        }
      }
    }

    /** What was missed is not allocated again. */
    twostate lemma StillMissed(deeds: seq<Deed>)
      requires OnlyNew() && NoneMissed(old(alive), deeds)
      ensures NoneMissed(alive, deeds)
    {
      forall k | 0 <= k < |deeds| ensures Missed(alive, deeds[k]) {
        assert Missed(old(alive), deeds[k]);
      }
    }

    /** A deed of the callback with `script` behind it, of which others have used all but `mid`. */
    method DoOne(ghost done: seq<Act>, act: Act, script: seq<seq<Act>>, mid: seq<seq<Act>>, ghost deeds: seq<Deed>,
        ghost log0: seq<Entry>, ghost gentle: bool, ghost m: Moment)
      returns (rest: seq<seq<Act>>, ghost all: seq<Deed>)
      requires Steady(m) && (gentle ==> NoStops(mid) && !act.Stops?)
      requires |mid| <= |script| && Did(done, script, mid, deeds, log0)
      modifies `pendings, `pendingpri, `due, `log, `alive, `owner, `made, alive`pending, dummy`pending
      ensures Steady(m) && OnlyNew()
      ensures old(log) <= log && |rest| <= |mid|
      ensures gentle ==> NoStops(rest) && NoClears(log, |old(log)|)
      ensures Did(done + [act], script, rest, all, log0)
      decreases |script|, 4
    {
      rest := mid;
      if act.Invokes? {
        ghost var d := Deed(|script|, act, None, |log|);
        FollowsOne(done, act, script, mid, deeds, d);
        OneTold(log, d);
        ToldBoth(log, log, |log0|, |log|, deeds, [d]);
        ghost var more: seq<Deed>;
        rest, more := InvokeAll(mid, gentle, m);
        StillMissed(deeds + [d]);
        FollowsBoth([done + [act]] + script, mid, rest, deeds + [d], more);
        ToldBoth(old(log), log, |log0|, |old(log)|, deeds + [d], more);
        all := deeds + [d] + more;
      } else {
        ghost var d := Perform(act, |script|, m);
        StillMissed(deeds);
        FollowsOne(done, act, script, mid, deeds, d);
        OneTold(old(log), d);
        ToldBoth(old(log), log, |log0|, |old(log)|, deeds, [d]);
        all := deeds + [d];
      }
    }

    /** So far the callback with `script` behind it, and those it called, did what they were to. */
    ghost predicate Did(done: seq<Act>, script: seq<seq<Act>>, rest: seq<seq<Act>>, deeds: seq<Deed>, log0: seq<Entry>)
      reads `log, `alive
    {
      && log0 <= log && Follows([done] + script, rest, deeds) && Uses(script, rest, Calls(log0), Calls(log))
      && Told(log, |log0|, deeds) && NoneMissed(alive, deeds)
    }

    /** The body of a callback that does `acts`; callbacks of nested drains follow `script`. */
    method RunCallback(acts: seq<Act>, script: seq<seq<Act>>, ghost gentle: bool, ghost m: Moment)
      returns (rest: seq<seq<Act>>, ghost deeds: seq<Deed>)
      requires gentle ==> NoStops([acts] + script)
      requires Steady(m)
      modifies `pendings, `pendingpri, `due, `log, `alive, `owner, `made, alive`pending, dummy`pending
      ensures Steady(m) && OnlyNew()
      ensures old(log) <= log && |rest| <= |script|
      ensures gentle ==> NoStops(rest) && NoClears(log, |old(log)|)
      // it does what it is to do, and so does everybody whom it calls
      ensures Did(acts, script, rest, deeds, old(log))
      decreases |script|, 5
    {
      rest, deeds := script, [];
      assert gentle ==> NoStops(script) && forall j {:trigger acts[j]} :: 0 <= j < |acts| ==> !acts[j].Stops? by {
        Gentle(acts, script);
      }
      assert ([[]] + script)[1..] == script;
      for i := 0 to |acts|
        invariant Steady(m) && OnlyNew()
        invariant old(log) <= log && |rest| <= |script|
        invariant gentle ==> NoStops(rest) && NoClears(log, |old(log)|)
        invariant Did(acts[..i], script, rest, deeds, old(log))
      {
        assert acts[..i] + [acts[i]] == acts[..i + 1];
        rest, deeds := DoOne(acts[..i], acts[i], script, rest, deeds, old(log), gentle, m);
      }
      assert acts[..|acts|] == acts;
    }

    /** ev_invoke_pending.  The i-th callback to be entered does script[i], and nothing
        when the script is over; `rest` is what is left of the script. */
    method InvokePending(script: seq<seq<Act>>, ghost gentle: bool)
      returns (rest: seq<seq<Act>>, ghost deeds: seq<Deed>)
      requires gentle ==> NoStops(script)
      requires Ready()
      modifies `pendings, `pendingpri, `due, `log, `alive, `owner, `made, alive`pending, dummy`pending
      ensures Ready()
      ensures forall p :: 0 <= p < NUMPRI ==> pendings[p] == []
      ensures due == map[] && pendingpri == 0
      // of two watchers that were due at one priority the one with the later slot comes first
      ensures InOrder(log, old(Now()))
      // all that was due was taken
      ensures forall w {:trigger w in old(due)} :: w in old(due) ==> !Untaken(log, |old(log)|, |log|, w)
      ensures gentle ==> NoStops(rest) && NoClears(log, |old(log)|)
      ensures OnlyNew() && old(log) <= log && |rest| <= |script|
      // each callback did what the script says, and the history tells of it
      ensures Ran(script, rest, deeds, old(log), log) && NoneMissed(alive, deeds)
    {
      rest, deeds := InvokeAll(script, gentle, Now());
      forall w | w in old(due) ensures !Untaken(log, |old(log)|, |log|, w) {
        assert log[..|old(log)|] == old(log);
        DueIsTaken(log, |old(log)|, w);
      }
    }

    /** ev_invoke_pending, perhaps from within a callback of one that began at the moment m. */
    method InvokeAll(script: seq<seq<Act>>, ghost gentle: bool, ghost m: Moment)
      returns (rest: seq<seq<Act>>, ghost deeds: seq<Deed>)
      requires gentle ==> NoStops(script)
      requires Ready() && Order(m)
      modifies `pendings, `pendingpri, `due, `log, `alive, `owner, `made, alive`pending, dummy`pending
      ensures Steady(m)
      ensures forall p :: 0 <= p < NUMPRI ==> pendings[p] == []
      ensures due == map[] && pendingpri == 0
      ensures gentle ==> NoStops(rest) && NoClears(log, |old(log)|)
      ensures OnlyNew() && old(log) <= log && |rest| <= |script|
      ensures Ran(script, rest, deeds, old(log), log) && NoneMissed(alive, deeds)
      decreases |script|, 3
    {
      rest, deeds := script, [];
      pendingpri := NUMPRI;
      var more := true;
      while more
        invariant Poised(m) && OnlyNew() && old(log) <= log && |rest| <= |script|
        invariant gentle ==> NoStops(rest) && NoClears(log, |old(log)|)
        invariant Ran(script, rest, deeds, old(log), log) && NoneMissed(alive, deeds)
        invariant if more then 0 < pendingpri else pendingpri == 0
        decreases |rest|, SlotCount(pendings), pendingpri, more
      {
        rest, deeds := NextLevel(script, rest, deeds, old(log), gentle, m);
        more := pendingpri != 0;
      }
      DueBelow(0);
    }

    /** The queue is sound, nothing waits at the priority in hand or above it, and the order
        since m is kept. */
    ghost predicate Poised(m: Moment)
      reads `pendings, `pendingpri, `alive, `owner, `due, `log, alive`pending, m.seats.Keys`pending
    {
      Ready() && Order(m) && EmptyFrom(pendings, pendingpri) && pendingpri <= NUMPRI
    }

    /** One round of the outer loop: the queue of the next lower priority. */
    method NextLevel(ghost script: seq<seq<Act>>, mid: seq<seq<Act>>, ghost deeds: seq<Deed>, ghost log0: seq<Entry>,
        ghost gentle: bool, ghost m: Moment)
      returns (rest: seq<seq<Act>>, ghost all: seq<Deed>)
      requires gentle ==> NoStops(mid)
      requires pendingpri > 0 && Poised(m)
      requires Ran(script, mid, deeds, log0, log) && NoneMissed(alive, deeds)
      modifies `pendings, `pendingpri, `due, `log, `alive, `owner, `made, alive`pending, dummy`pending
      ensures Poised(m) && pendingpri < NUMPRI
      ensures OnlyNew() && old(log) <= log && |rest| <= |mid|
      ensures |rest| == |mid| ==> (
        || SlotCount(pendings) < old(SlotCount(pendings))
        || (SlotCount(pendings) == old(SlotCount(pendings)) && pendingpri < old(pendingpri)))
      ensures gentle ==> NoStops(rest) && NoClears(log, |old(log)|)
      ensures Ran(script, rest, all, log0, log) && NoneMissed(alive, all)
      decreases |mid|, 2
    {
      pendingpri := pendingpri - 1;
      rest, all := DrainWhile(script, mid, deeds, log0, gentle, m);
    }

    /** The inner loop: as long as the priority in hand has a slot. */
    method DrainWhile(ghost script: seq<seq<Act>>, mid: seq<seq<Act>>, ghost deeds: seq<Deed>, ghost log0: seq<Entry>,
        ghost gentle: bool, ghost m: Moment)
      returns (rest: seq<seq<Act>>, ghost all: seq<Deed>)
      requires gentle ==> NoStops(mid)
      requires Steady(m)
      requires Ran(script, mid, deeds, log0, log) && NoneMissed(alive, deeds)
      modifies `pendings, `pendingpri, `due, `log, `alive, `owner, `made, alive`pending, dummy`pending
      ensures Steady(m) && EmptyFrom(pendings, pendingpri)
      ensures OnlyNew() && old(log) <= log && |rest| <= |mid|
      ensures |rest| == |mid| ==> (
        || SlotCount(pendings) < old(SlotCount(pendings))
        || (SlotCount(pendings) == old(SlotCount(pendings)) && pendingpri == old(pendingpri)))
      ensures gentle ==> NoStops(rest) && NoClears(log, |old(log)|)
      ensures Ran(script, rest, all, log0, log) && NoneMissed(alive, all)
      decreases |mid|, 1
    {
      rest, all := mid, deeds;
      while pendings[pendingpri] != []
        invariant Steady(m)
        invariant OnlyNew() && old(log) <= log && |rest| <= |mid|
        invariant |rest| == |mid| ==> (
          || SlotCount(pendings) < old(SlotCount(pendings))
          || (SlotCount(pendings) == old(SlotCount(pendings)) && pendingpri == old(pendingpri)))
        invariant gentle ==> NoStops(rest) && NoClears(log, |old(log)|)
        invariant Ran(script, rest, all, log0, log) && NoneMissed(alive, all)
        decreases |rest|, SlotCount(pendings)
      {
        rest, all := RoundMore(script, rest, all, log0, gentle, m);
      }
    }

    /** One round of it, after others. */
    method RoundMore(ghost script: seq<seq<Act>>, mid: seq<seq<Act>>, ghost deeds: seq<Deed>, ghost log0: seq<Entry>,
        ghost gentle: bool, ghost m: Moment)
      returns (rest: seq<seq<Act>>, ghost all: seq<Deed>)
      requires gentle ==> NoStops(mid)
      requires Steady(m) && pendings[pendingpri] != []
      requires Ran(script, mid, deeds, log0, log) && NoneMissed(alive, deeds)
      modifies `pendings, `pendingpri, `due, `log, `alive, `owner, `made, alive`pending, dummy`pending
      ensures Steady(m)
      ensures OnlyNew() && old(log) <= log && |rest| <= |mid|
      ensures |rest| == |mid| ==>
        SlotCount(pendings) < old(SlotCount(pendings)) && pendingpri == old(pendingpri)
      ensures gentle ==> NoStops(rest) && NoClears(log, |old(log)|)
      ensures Ran(script, rest, all, log0, log) && NoneMissed(alive, all)
      decreases |mid|, 0, 1
    {
      ghost var more: seq<Deed>;
      rest, more := Round(mid, gentle, m);
      StillMissed(deeds);
      RanBoth(script, mid, rest, deeds, more, log0, old(log), log);
      all := deeds + more;
    }

    /** One round of it: the last slot is taken off, and its callback runs. */
    method Round(script: seq<seq<Act>>, ghost gentle: bool, ghost m: Moment)
      returns (rest: seq<seq<Act>>, ghost deeds: seq<Deed>)
      requires gentle ==> NoStops(script)
      requires Steady(m) && pendings[pendingpri] != []
      modifies `pendings, `pendingpri, `due, `log, `alive, `owner, `made, alive`pending, dummy`pending
      ensures Steady(m)
      ensures OnlyNew() && old(log) <= log && |rest| <= |script|
      ensures |rest| == |script| ==>
        SlotCount(pendings) < old(SlotCount(pendings)) && pendingpri == old(pendingpri)
      ensures gentle ==> NoStops(rest) && NoClears(log, |old(log)|)
      ensures Ran(script, rest, deeds, old(log), log) && NoneMissed(alive, deeds)
      decreases |script|, 0, 0
    {
      var entered := Enter(pendingpri, m);
      rest, deeds := script, [];
      if entered && script != [] {
        assert [script[0]] + script[1..] == script;
        rest, deeds := RunCallback(script[0], script[1..], gentle, m);
      }
    }
  }
}
