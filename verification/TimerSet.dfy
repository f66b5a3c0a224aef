/** libev's relative timers: started, stopped and re-armed on the 4-ary heap, and turned
    into pending events when they expire. */
module TimerSet {
  import opened Common
  import opened Watchers
  import opened TimerHeap
  import opened PendingQueue

  /** The heap holds exactly the watchers of the table, each at the time the table has. */
  ghost predicate Tied(s: seq<Anhe>, n: nat, expiry: map<Watcher, int>)
    requires HEAP0 + n <= |s|
    reads expiry.Keys`active
  {
    && (forall i {:trigger s[i]} :: HEAP0 <= i < HEAP0 + n ==>
      s[i].w in expiry && s[i].w.active == i && s[i].at == expiry[s[i].w])
    && (forall w {:trigger w in expiry} :: w in expiry ==>
      HEAP0 <= w.active < HEAP0 + n && s[w.active].w == w)
  }

  /** Every entry of one heap is an entry of the other. */
  lemma EntryOf(s: seq<Anhe>, t: seq<Anhe>, n: nat, i: nat) returns (j: nat)
    requires HEAP0 + n <= |s| && |t| == |s| && Entries(s, n) == Entries(t, n)
    requires HEAP0 <= i < HEAP0 + n
    ensures HEAP0 <= j < HEAP0 + n && s[j] == t[i]
  {
    var x, y := s[HEAP0..HEAP0 + n], t[HEAP0..HEAP0 + n];
    assert y[i - HEAP0] in multiset(y);
    assert t[i] in multiset(x);
    j :| 0 <= j < n && x[j] == t[i];
    j := j + HEAP0;
  }

  /** Every entry of the heap is in the table, and every watcher of the table on the heap. */
  ghost predicate Listed(s: seq<Anhe>, n: nat, expiry: map<Watcher, int>)
    requires HEAP0 + n <= |s|
  {
    && (forall i {:trigger s[i]} :: HEAP0 <= i < HEAP0 + n ==> s[i].w in expiry && s[i].at == expiry[s[i].w])
    && expiry.Keys == Sitting(s, n)
  }

  lemma TiedIsListed(s: seq<Anhe>, n: nat, expiry: map<Watcher, int>)
    requires HEAP0 + n <= |s| && Tied(s, n, expiry)
    ensures Listed(s, n, expiry)
  {
    forall w | w in expiry ensures w in Sitting(s, n) {
      assert s[w.active].w == w;
    }
  }

  /** A heap with the same entries, every watcher in its seat, is tied to the same table. */
  lemma Retied(s: seq<Anhe>, t: seq<Anhe>, n: nat, expiry: map<Watcher, int>)
    requires HEAP0 + n <= |s| && |t| == |s| && Entries(s, n) == Entries(t, n) && Seated(t, n)
    requires Listed(s, n, expiry) && Sitting(s, n) == Sitting(t, n)
    ensures Tied(t, n, expiry)
  {
    forall i | HEAP0 <= i < HEAP0 + n ensures t[i].w in expiry && t[i].at == expiry[t[i].w] {
      var j := EntryOf(s, t, n, i);
    }
    forall w | w in expiry ensures HEAP0 <= w.active < HEAP0 + n && t[w.active].w == w {
      var i: nat :| HEAP0 <= i < HEAP0 + n && t[i].w == w;
      assert t[i].w.active == i;
    }
  }

  /** One more entry behind a heap in order. */
  lemma Appended(s: seq<Anhe>, t: seq<Anhe>, n: nat, expiry: map<Watcher, int>)
    requires HEAP0 + n <= |s| && HEAP0 + n < |t| && t[..HEAP0 + n] == s[..HEAP0 + n]
    requires Order(s, n) && Tied(s, n, expiry) && t[HEAP0 + n].w !in expiry
    ensures OrderBut(t, n + 1, n + HEAP0) && AboveChildren(t, n + 1, n + HEAP0)
    ensures SeatedBut(t, n + 1, n + HEAP0)
    ensures Listed(t, n + 1, expiry[t[HEAP0 + n].w := t[HEAP0 + n].at])
  {
    assert forall i {:trigger s[i]} {:trigger t[i]} :: 0 <= i < HEAP0 + n ==> t[..HEAP0 + n][i] == s[..HEAP0 + n][i];
    NextIsOrderBut(t, n);
    TiedIsListed(s, n, expiry);
    assert Sitting(t, n + 1) == Sitting(s, n) + {t[HEAP0 + n].w};
  }

  /** The last entry of a heap in order takes the place of the one at k. */
  lemma Replaced(s: seq<Anhe>, n: nat, k: nat, expiry: map<Watcher, int>)
    requires HEAP0 + n <= |s| && Order(s, n) && Tied(s, n, expiry) && HEAP0 <= k < HEAP0 + n - 1
    ensures var t := s[k := s[HEAP0 + n - 1]];
      OrderBut(t, n - 1, k) && SeatedBut(t, n - 1, k) && Listed(t, n - 1, expiry - {s[k].w})
  {
    var e := s[HEAP0 + n - 1];
    var t := s[k := e];
    assert Order(s, n - 1);
    ReplacedIsOrderBut(s, n - 1, k, e);
    assert t[k] == e;
    forall w | w in expiry && w != s[k].w ensures w in Sitting(t, n - 1) {
      assert s[w.active].w == w;
      assert t[if w == e.w then k else w.active].w == w;
    }
  }

  /** Without its last entry a heap is still in order. */
  lemma Shortened(s: seq<Anhe>, n: nat, expiry: map<Watcher, int>)
    requires HEAP0 + n <= |s| && n > 0 && Order(s, n) && Tied(s, n, expiry)
    ensures Order(s, n - 1) && Tied(s, n - 1, expiry - {s[HEAP0 + n - 1].w})
  {
  }

  /** The entry at k gets a new time. */
  lemma Rekeyed(s: seq<Anhe>, n: nat, k: nat, at: int, expiry: map<Watcher, int>)
    requires HEAP0 + n <= |s| && Order(s, n) && Tied(s, n, expiry) && HEAP0 <= k < HEAP0 + n
    ensures var t := s[k := Anhe(at, s[k].w)];
      OrderBut(t, n, k) && SeatedBut(t, n, k) && Listed(t, n, expiry[s[k].w := at])
  {
    var t := s[k := Anhe(at, s[k].w)];
    ReplacedIsOrderBut(s, n, k, t[k]);
    assert t[k].w == s[k].w;
    forall w | w in expiry ensures w in Sitting(t, n) {
      assert s[w.active].w == w;
      assert t[w.active].w == w;
    }
  }

  /** The root of a heap in order has the least time of the table. */
  lemma RootHasLeast(s: seq<Anhe>, n: nat, expiry: map<Watcher, int>)
    requires HEAP0 + n <= |s| && n > 0 && Order(s, n) && Tied(s, n, expiry)
    ensures forall v :: v in expiry ==> s[HEAP0].at <= expiry[v]
  {
    forall v | v in expiry ensures s[HEAP0].at <= expiry[v] {
      RootIsLeast(s, n, v.active);
    }
  }

  /** No watcher of the table expires before w. */
  ghost predicate Earliest(e: map<Watcher, int>, w: Watcher) {
    w in e && forall v {:trigger v in e} :: v in e ==> e[w] <= e[v]
  }

  /** The table after w, which expired, was re-armed for no earlier than now, or stopped. */
  ghost function Rearmed(e: map<Watcher, int>, w: Watcher, repeat: int, now: int): map<Watcher, int>
    requires w in e
  {
    if repeat > 0 then e[w := Max(e[w] + repeat, now)] else e - {w}
  }

  /** What becomes of the table when w fires, which is the earliest and has expired. */
  ghost predicate Fires(e: map<Watcher, int>, w: Watcher, repeat: int, now: int, f: map<Watcher, int>) {
    Earliest(e, w) && e[w] < now && f == Rearmed(e, w, repeat, now)
  }

  /** How far timers_reify has come: `fired` have been taken in turn since the table was
      e0, with the repeat values `rep`. */
  ghost predicate Progress(e0: map<Watcher, int>, rep: map<Watcher, int>, e: map<Watcher, int>, fired: seq<Watcher>,
      now: int) {
    && e0.Keys <= rep.Keys
    && (forall k {:trigger fired[k]} :: 0 <= k < |fired| ==> fired[k] in e0 && e0[fired[k]] < now)
    && (forall j, k {:trigger fired[j], fired[k]} :: 0 <= j < k < |fired| ==>
      fired[j] != fired[k] && e0[fired[j]] <= e0[fired[k]])
    && (forall w {:trigger w in e} :: w in e ==> w in e0)
    && (forall w {:trigger w in e0} :: w in e0 ==> (w in e <==> w !in fired || rep[w] > 0))
    && (forall w {:trigger w in e} :: w in e ==> e[w] == if w in fired then Max(e0[w] + rep[w], now) else e0[w])
    && (forall k, w {:trigger fired[k], w in e} :: 0 <= k < |fired| && w in e && w !in fired ==> e0[fired[k]] <= e[w])
  }

  function Expired(e: map<Watcher, int>, now: int): set<Watcher> {
    set w | w in e && e[w] < now
  }

  lemma FiresOnce(e0: map<Watcher, int>, rep: map<Watcher, int>, e: map<Watcher, int>, fired: seq<Watcher>, now: int,
      w: Watcher, f: map<Watcher, int>)
    requires Progress(e0, rep, e, fired, now) && w in rep && Fires(e, w, rep[w], now, f)
    ensures Progress(e0, rep, f, fired + [w], now)
  {
    assert w !in fired;
    assert forall v :: v in fired + [w] <==> v in fired || v == w;
  }

  lemma FewerExpired(e: map<Watcher, int>, now: int, w: Watcher, repeat: int, f: map<Watcher, int>)
    requires Fires(e, w, repeat, now, f)
    ensures |Expired(f, now)| < |Expired(e, now)|
  {
    assert Expired(f, now) == Expired(e, now) - {w};
    assert w in Expired(e, now);
  }

  /** The table timers_reify is to leave: the expired that repeat are re-armed for no
      earlier than now, the other expired are gone, and the rest stay. */
  ghost function Reified(e0: map<Watcher, int>, rep: map<Watcher, int>, now: int): map<Watcher, int>
    requires e0.Keys <= rep.Keys
  {
    map w | w in e0 && (e0[w] >= now || rep[w] > 0) :: if e0[w] >= now then e0[w] else Max(e0[w] + rep[w], now)
  }

  /** When nothing expired is left, exactly the expired have fired, and the table is right. */
  lemma AllFired(e0: map<Watcher, int>, rep: map<Watcher, int>, e: map<Watcher, int>, fired: seq<Watcher>, now: int)
    requires Progress(e0, rep, e, fired, now) && Expired(e, now) == {}
    ensures (set w | w in fired) == Expired(e0, now) && InExpiryOrder(e0, fired)
    ensures e == Reified(e0, rep, now)
  {
    forall w | w in e0 && w !in fired ensures e0[w] >= now {
      assert w in e && w !in Expired(e, now);
    }
    var r := Reified(e0, rep, now);
    assert forall w :: w in fired ==> w in e0 && e0[w] < now;
    forall w | w in e ensures w in r && r[w] == e[w] {
    }
    assert e.Keys == r.Keys;
  }

  /** What is due after the non-repeating of the fired timers were stopped. */
  ghost function Stopped(d0: Table, rep: map<Watcher, int>, fired: seq<Watcher>): Table {
    map v | v in d0 && !(v in fired && v in rep && rep[v] <= 0) :: d0[v]
  }

  /** The timers are all of the table, each once, the earliest first. */
  ghost predicate InExpiryOrder(e0: map<Watcher, int>, fired: seq<Watcher>) {
    && (forall k {:trigger fired[k]} :: 0 <= k < |fired| ==> fired[k] in e0)
    && (forall j, k {:trigger fired[j], fired[k]} :: 0 <= j < k < |fired| ==>
      fired[j] != fired[k] && e0[fired[j]] <= e0[fired[k]])
  }

  /** Of those in the list that have one priority and were not due before, none is called
      before the ones in front of it. */
  ghost predicate InTurn(log: seq<Entry>, n: nat, d: Table, fired: seq<Watcher>)
  {
    forall j, k {:trigger fired[j], fired[k]} ::
      0 <= j < k < |fired| && fired[j].priority == fired[k].priority && fired[j] !in d && fired[k] !in d ==>
        ComesFirst(log, n, fired[j], fired[k])
  }

  lemma StoppedOnce(d0: Table, d: Table, rep: map<Watcher, int>, fired: seq<Watcher>, w: Watcher)
    requires d == Stopped(d0, rep, fired) && w in rep
    ensures (if rep[w] > 0 then d else d - {w}) == Stopped(d0, rep, fired + [w])
  {
    assert forall v :: v in fired + [w] <==> v in fired || v == w;
  }

  /** A larger array with the same entries; libev doubles at least. */
  method Grown(a: array<Anhe>, e: Anhe) returns (b: array<Anhe>)
    ensures fresh(b) && b.Length == 2 * (a.Length + 1) && b[..a.Length] == a[..]
  {
    b := new Anhe[2 * (a.Length + 1)](_ => e);
    for i := 0 to a.Length
      invariant b[..i] == a[..i]
    {
      b[i] := a[i];
    }
  }

  class Timers {
    var timers: array<Anhe>
    var timercnt: nat
    var mnNow: int
    const queue: Pendings
    ghost var all: set<Watcher>           // the timers in use
    ghost var expiry: map<Watcher, int>   // those started, with their expiry times

    ghost predicate Valid()
      reads `timers, `timercnt, `all, `expiry, timers, all`active, all`at, all`repeat, expiry.Keys`active
    {
      Heaped() && TableOk()
    }

    ghost predicate Heaped()
      reads `timers, `timercnt, `expiry, timers, expiry.Keys`active
    {
      HEAP0 + timercnt <= timers.Length && Order(timers[..], timercnt) && Tied(timers[..], timercnt, expiry)
    }

    /** The table agrees with the timers; one that is not in it is stopped. */
    ghost predicate TableOk()
      reads `all, `expiry, all`active, all`at, all`repeat
    {
      && expiry.Keys <= all
      && (forall w {:trigger w in all} :: w in all && w !in expiry ==> w.active == 0)
      && (forall w {:trigger w in expiry} :: w in expiry ==> w.at == expiry[w] && w.repeat >= 0)
    }

    constructor (queue: Pendings)
      ensures Valid() && this.queue == queue && expiry == map[] && all == {} && fresh(timers)
    {
      var w := new Watcher(0, 0, 0);
      timers := new Anhe[HEAP0](_ => Anhe(0, w));
      timercnt, mnNow, all, expiry := 0, 0, {}, map[];
      this.queue := queue;
    }

    /** A timer comes into use: ev_timer_init, and the priority set. */
    method NewTimer(priority: int, after: int, repeat: int) returns (w: Watcher)
      requires Valid() && queue.Ready() && all <= queue.alive && MINPRI <= priority <= MAXPRI
      modifies `all, queue`alive
      ensures Valid() && queue.Ready() && all <= queue.alive && fresh(w) && all == old(all) + {w}
      ensures w !in expiry && w.at == after && w.repeat == repeat && w.priority == priority
    {
      w := queue.NewWatcher(priority, after, repeat);
      all := all + {w};
    }

    /** Room for the entry at k, which is put there behind the others. */
    method NeedSize(k: nat, e: Anhe)
      requires k <= timers.Length
      modifies `timers, timers
      ensures k < timers.Length && (timers == old(timers) || fresh(timers))
      ensures timers[..][..k] == old(timers[..])[..k] && timers[..][k] == e
    {
      if k == timers.Length {
        var a := Grown(timers, e);
        assert a[..k] == timers[..k];
        timers := a;
      }
      timers[k] := e;
    }

    /** Moves the entry at k, which may be too early for its place, to where it belongs. */
    method SettleUp(k: nat)
      requires HEAP0 <= k < HEAP0 + timercnt <= timers.Length
      requires OrderBut(timers[..], timercnt, k) && AboveChildren(timers[..], timercnt, k)
      requires SeatedBut(timers[..], timercnt, k) && Listed(timers[..], timercnt, expiry)
      requires TableOk()
      modifies timers, expiry.Keys`active
      ensures Valid()
    {
      ghost var t := timers[..];
      UpHeap(timers, k, timercnt);
      UpKeepsEntries(t, timercnt, k);
      UpOrders(t, timercnt, k);
      Retied(t, timers[..], timercnt, expiry);
    }

    /** Moves the entry at k, which may be out of place either way, to where it belongs. */
    method Settle(k: nat)
      requires HEAP0 <= k < HEAP0 + timercnt <= timers.Length && OrderBut(timers[..], timercnt, k)
      requires SeatedBut(timers[..], timercnt, k) && Listed(timers[..], timercnt, expiry)
      modifies timers, expiry.Keys`active
      ensures Heaped()
    {
      ghost var t := timers[..];
      AdjustHeap(timers, timercnt, k);
      AdjustOrders(t, timercnt, k);
      Retied(t, timers[..], timercnt, expiry);
    }

    /** Puts an entry for w behind the heap, at k. */
    method PutBehind(w: Watcher) returns (k: nat, n: nat, ghost t: seq<Anhe>)
      requires Valid() && w in all && w !in expiry
      modifies `timers, timers
      ensures TableOk() && n == timercnt + 1 && k == HEAP0 + timercnt < timers.Length
      ensures (timers == old(timers) || fresh(timers)) && t == timers[..]
      ensures OrderBut(t, n, k) && AboveChildren(t, n, k) && SeatedBut(t, n, k) && Listed(t, n, expiry[w := w.at])
    {
      ghost var s := timers[..];
      k, n := timercnt + HEAP0, timercnt + 1;
      NeedSize(k, Anhe(w.at, w));
      t := timers[..];
      Appended(s, t, timercnt, expiry);
    }

    /** Puts an entry for w behind the heap and counts it. */
    method Place(w: Watcher) returns (k: nat, ghost t: seq<Anhe>)
      requires Valid() && w in all && w !in expiry && w.repeat >= 0
      modifies `timers, `timercnt, `expiry, timers
      ensures TableOk() && timercnt == old(timercnt) + 1 && k + 1 == HEAP0 + timercnt <= timers.Length
        && t == timers[..]
      ensures OrderBut(t, timercnt, k) && AboveChildren(t, timercnt, k) && SeatedBut(t, timercnt, k)
      ensures expiry == old(expiry)[w := w.at] && Listed(t, timercnt, expiry)
      ensures timers == old(timers) || fresh(timers)
    {
      var n;
      k, n, t := PutBehind(w);
      timercnt, expiry := n, expiry[w := w.at];
      assert timers[..] == t;
    }

    /** Puts a stopped timer on the heap at its time. */
    method Insert(w: Watcher)
      requires Valid() && w in all && w !in expiry && w.repeat >= 0
      modifies `timers, `timercnt, `expiry, timers, expiry.Keys`active, w`active
      ensures Valid() && expiry == old(expiry)[w := w.at] && (timers == old(timers) || fresh(timers))
    {
      var k, _ := Place(w);
      SettleUp(k);
    }

    /** ev_timer_start */
    method Start(w: Watcher)
      requires Valid() && w in all && w.repeat >= 0
      modifies `timers, `timercnt, `expiry, timers, expiry.Keys`active, w`active, w`at
      ensures Valid() && (timers == old(timers) || fresh(timers))
      ensures old(w in expiry) ==> expiry == old(expiry)
      ensures old(w !in expiry) ==> expiry == old(expiry)[w := old(w.at) + mnNow]
    {
      if w.active == 0 {
        w.at := w.at + mnNow;
        Insert(w);
      }
    }

    /** Overwrites the entry at k with the last one. */
    method Overwrite(k: nat, w: Watcher) returns (ghost t: seq<Anhe>)
      requires HEAP0 <= k < HEAP0 + timercnt < timers.Length && timers[k].w == w
      requires Order(timers[..], timercnt + 1) && Tied(timers[..], timercnt + 1, expiry)
      modifies `expiry, timers
      ensures expiry == old(expiry) - {w} && t == timers[..]
      ensures OrderBut(t, timercnt, k) && SeatedBut(t, timercnt, k) && Listed(t, timercnt, expiry)
      ensures forall v :: v in expiry ==> v in old(expiry)
    {
      ghost var s := timers[..];
      var n := HEAP0 + timercnt;
      t := s[k := s[n]];
      Replaced(s, timercnt + 1, k, expiry);
      timers[k] := timers[n];
      expiry := expiry - {w};
    }

    /** Overwrites the entry at k with the last one, and puts that in order. */
    method FillGap(k: nat, w: Watcher)
      requires HEAP0 <= k < HEAP0 + timercnt < timers.Length && timers[k].w == w
      requires Order(timers[..], timercnt + 1) && Tied(timers[..], timercnt + 1, expiry)
      modifies `expiry, timers, expiry.Keys`active
      ensures Heaped() && expiry == old(expiry) - {w}
    {
      ghost var t := Overwrite(k, w);
      Settle(k);
    }

    /** Nothing moves when the last entry goes. */
    ghost method DropLast(w: Watcher)
      requires HEAP0 + timercnt < timers.Length && timers[HEAP0 + timercnt].w == w
      requires Order(timers[..], timercnt + 1) && Tied(timers[..], timercnt + 1, expiry)
      modifies `expiry
      ensures Heaped() && expiry == old(expiry) - {w}
    {
      Shortened(timers[..], timercnt + 1, expiry);
      expiry := expiry - {w};
    }

    /** Takes a started timer off the heap; its `active` is for the caller to reset. */
    method Remove(w: Watcher)
      requires Heaped() && w in expiry
      modifies `timercnt, `expiry, timers, expiry.Keys`active
      ensures Heaped() && expiry == old(expiry) - {w}
    {
      var active := w.active;
      assert timers[..][active].w == w;
      timercnt := timercnt - 1;
      if active < timercnt + HEAP0 {
        FillGap(active, w);
      } else {
        DropLast(w);
      }
    }

    /** ev_timer_stop, behind clear_pending. */
    method StopCleared(w: Watcher)
      requires Valid() && w in all
      modifies `timercnt, `expiry, timers, all`active, w`at
      ensures Valid() && expiry == old(expiry) - {w}
      ensures w.at == if old(w in expiry) then old(w.at) - mnNow else old(w.at)
    {
      if w.active != 0 {
        Remove(w);
        w.at := w.at - mnNow;
        w.active := 0;
      }
    }

    /** clear_pending, which leaves the timers alone. */
    method ClearFirst(w: Watcher)
      requires Valid() && queue.Ready() && w in queue.alive
      modifies queue`pendings, queue`due, queue`log, w`pending
      ensures Valid() && queue.Ready()
      ensures queue.due == old(queue.due) - {w} && queue.log == old(queue.log) + [Cleared(w)]
    {
      var _ := queue.ClearPending(w);
    }

    /** StopCleared leaves the queue alone. */
    method StopBeside(w: Watcher)
      requires Valid() && w in all && queue.Ready()
      modifies `timercnt, `expiry, timers, all`active, w`at
      ensures Valid() && expiry == old(expiry) - {w} && queue.Ready()
      ensures w.at == if old(w in expiry) then old(w.at) - mnNow else old(w.at)
    {
      StopCleared(w);
    }

    /** ev_timer_stop */
    method Stop(w: Watcher)
      requires Valid() && w in all && queue.Ready() && w in queue.alive
      modifies `timercnt, `expiry, timers, all`active, w`at
      modifies queue`pendings, queue`due, queue`log, w`pending
      ensures Valid() && expiry == old(expiry) - {w}
      ensures w.at == if old(w in expiry) then old(w.at) - mnNow else old(w.at)
      ensures queue.Ready() && queue.due == old(queue.due) - {w} && queue.log == old(queue.log) + [Cleared(w)]
    {
      ClearFirst(w);
      StopBeside(w);
    }

    /** Gives a started timer a new time and re-orders the heap. */
    method Rekey(w: Watcher, at: int)
      requires Valid() && w in expiry
      modifies `expiry, timers, expiry.Keys`active, w`at
      ensures Valid() && expiry == old(expiry)[w := at]
    {
      ghost var s := timers[..];
      var k := w.active;
      assert s[k].w == w;
      Rekeyed(s, timercnt, k, at, expiry);
      w.at := at;
      timers[k] := Anhe(at, w);
      expiry := expiry[w := at];
      assert timers[..] == s[k := Anhe(at, w)];
      Settle(k);
    }

    /** ev_timer_again on a started timer, behind clear_pending. */
    method AgainStarted(w: Watcher)
      requires Valid() && w in expiry
      modifies `timercnt, `expiry, timers, all`active, w`at
      ensures Valid()
      ensures expiry == if w.repeat > 0 then old(expiry)[w := mnNow + w.repeat] else old(expiry) - {w}
      ensures w.repeat <= 0 ==> w.at == old(w.at) - mnNow
    {
      if w.repeat != 0 {
        Rekey(w, mnNow + w.repeat);
      } else {
        StopCleared(w);
      }
    }

    /** ev_timer_again, behind clear_pending. */
    method AgainCleared(w: Watcher)
      requires Valid() && w in all && w.repeat >= 0
      modifies `timers, `timercnt, `expiry, timers, all`active, w`at
      ensures Valid() && (timers == old(timers) || fresh(timers))
      ensures expiry == if w.repeat > 0 then old(expiry)[w := mnNow + w.repeat] else old(expiry) - {w}
      ensures w.repeat <= 0 ==> w.at == if old(w in expiry) then old(w.at) - mnNow else old(w.at)
    {
      if w.active != 0 {
        AgainStarted(w);
      } else if w.repeat != 0 {
        w.at := w.repeat;
        Start(w);
      } else {
        assert expiry - {w} == expiry;
      }
    }

    /** AgainCleared leaves the queue alone. */
    method AgainBeside(w: Watcher)
      requires Valid() && w in all && w.repeat >= 0 && queue.Ready()
      modifies `timers, `timercnt, `expiry, timers, all`active, w`at
      ensures Valid() && (timers == old(timers) || fresh(timers)) && queue.Ready()
      ensures expiry == if w.repeat > 0 then old(expiry)[w := mnNow + w.repeat] else old(expiry) - {w}
      ensures w.repeat <= 0 ==> w.at == if old(w in expiry) then old(w.at) - mnNow else old(w.at)
    {
      AgainCleared(w);
    }

    /** ev_timer_again */
    method Again(w: Watcher)
      requires Valid() && w in all && w.repeat >= 0 && queue.Ready() && w in queue.alive
      modifies `timers, `timercnt, `expiry, timers, all`active, w`at
      modifies queue`pendings, queue`due, queue`log, w`pending
      ensures Valid() && (timers == old(timers) || fresh(timers))
      ensures expiry == if w.repeat > 0 then old(expiry)[w := mnNow + w.repeat] else old(expiry) - {w}
      ensures w.repeat <= 0 ==> w.at == if old(w in expiry) then old(w.at) - mnNow else old(w.at)
      ensures queue.Ready() && queue.due == old(queue.due) - {w} && queue.log == old(queue.log) + [Cleared(w)]
    {
      ClearFirst(w);
      AgainBeside(w);
    }

    /** Moves the root, which may be too late for its place, to where it belongs. */
    method SettleRoot()
      requires 0 < timercnt && HEAP0 + timercnt <= timers.Length && OrderBut(timers[..], timercnt, HEAP0)
      requires SeatedBut(timers[..], timercnt, HEAP0) && Listed(timers[..], timercnt, expiry)
      modifies timers, expiry.Keys`active
      ensures Heaped()
    {
      ghost var t := timers[..];
      DownHeap(timers, timercnt, HEAP0);
      DownOrders(t, timercnt, HEAP0);
      DownKeepsEntries(t, timercnt, HEAP0);
      Retied(t, timers[..], timercnt, expiry);
    }

    /** Gives the root a later time, and moves it to where it belongs. */
    method RekeyRoot(w: Watcher, at: int)
      requires Valid() && timercnt > 0 && timers[HEAP0].w == w
      modifies `expiry, timers, expiry.Keys`active, w`at
      ensures Valid() && expiry == old(expiry)[w := at]
    {
      ghost var s := timers[..];
      assert s[HEAP0].w == w;
      Rekeyed(s, timercnt, HEAP0, at, expiry);
      w.at := at;
      timers[HEAP0] := Anhe(at, w);
      expiry := expiry[w := at];
      assert timers[..] == s[HEAP0 := Anhe(at, w)];
      SettleRoot();
    }

    /** Re-arms the repeating timer at the root. */
    method Rearm(w: Watcher)
      requires Valid() && timercnt > 0 && timers[HEAP0].w == w && w.repeat > 0
      modifies `expiry, timers, expiry.Keys`active, w`at
      ensures Valid() && w in old(expiry) && expiry == old(expiry)[w := Max(old(expiry[w]) + w.repeat, mnNow)]
    {
      assert timers[..][HEAP0].w == w;
      var at := w.at + w.repeat;
      if at < mnNow { at := mnNow; }
      RekeyRoot(w, at);
    }

    /** Rearm leaves the queue alone. */
    method RearmBeside(w: Watcher)
      requires Valid() && queue.Ready() && timercnt > 0 && timers[HEAP0].w == w && w.repeat > 0
      modifies `expiry, timers, expiry.Keys`active, w`at
      ensures Valid() && queue.Ready() && w in old(expiry) && w in expiry && w.at == expiry[w]
      ensures expiry == old(expiry)[w := Max(old(w.at) + w.repeat, mnNow)]
    {
      assert timers[..][HEAP0].w == w;
      Rearm(w);
    }

    /** Re-arms or stops the timer at the root, which has expired. */
    method Reschedule(w: Watcher)
      requires Valid() && queue.Ready() && timercnt > 0 && timers[HEAP0].w == w && w in all && w in queue.alive
      modifies `timercnt, `expiry, timers, all`active, w`at
      modifies queue`pendings, queue`due, queue`log, w`pending
      ensures Valid() && queue.Ready()
      ensures expiry == if w.repeat > 0 then old(expiry)[w := Max(old(w.at) + w.repeat, mnNow)] else old(expiry) - {w}
      ensures queue.due == if w.repeat > 0 then old(queue.due) else old(queue.due) - {w}
      ensures old(queue.log) <= queue.log
      ensures w.at == if w.repeat > 0 then expiry[w] else old(w.at) - mnNow
    {
      assert timers[..][HEAP0].w == w;
      if w.repeat != 0 {
        RearmBeside(w);
      } else {
        Stop(w);
      }
    }

    ghost predicate RepeatsAre(rep: map<Watcher, int>)
      reads `all, all`repeat
    {
      forall w {:trigger w in rep} {:trigger w in all} :: w in all ==> w in rep && rep[w] == w.repeat
    }

    /** Reschedule, and nobody's repeat value changes. */
    method RescheduleBeside(w: Watcher, ghost rep: map<Watcher, int>)
      requires Valid() && queue.Ready() && timercnt > 0 && timers[HEAP0].w == w && w in expiry && w in queue.alive
      requires RepeatsAre(rep)
      modifies `timercnt, `expiry, timers, all`active, w`at
      modifies queue`pendings, queue`due, queue`log, w`pending
      ensures Valid() && queue.Ready() && RepeatsAre(rep) && w in rep
      ensures expiry == Rearmed(old(expiry), w, rep[w], mnNow)
      ensures queue.due == if rep[w] > 0 then old(queue.due) else old(queue.due) - {w}
      ensures old(queue.log) <= queue.log
      ensures w.at == if rep[w] > 0 then expiry[w] else old(expiry[w]) - mnNow
    {
      Reschedule(w);
    }

    /** The timer at the root, which has expired, is the earliest of all. */
    lemma RootExpired()
      requires Valid() && timercnt > 0 && timers[HEAP0].at < mnNow
      ensures var w := timers[HEAP0].w;
        w in expiry && w in all && w.at == expiry[w] < mnNow && w.repeat >= 0 && Earliest(expiry, w)
    {
      assert timers[..][HEAP0].w == timers[HEAP0].w;
      RootHasLeast(timers[..], timercnt, expiry);
    }

    /** One round of timers_reify: the earliest timer has expired. */
    method FireRoot(ghost rep: map<Watcher, int>) returns (w: Watcher)
      requires RepeatsAre(rep)
      requires Valid() && queue.Ready() && all <= queue.alive && timercnt > 0 && timers[HEAP0].at < mnNow
      modifies `timercnt, `expiry, timers, all`active, expiry.Keys`at
      modifies queue`pendings, queue`due, queue`log, all`pending
      ensures Valid() && queue.Ready() && RepeatsAre(rep)
      ensures w in rep && Fires(old(expiry), w, rep[w], mnNow, expiry)
      ensures queue.due == if rep[w] > 0 then old(queue.due) else old(queue.due) - {w}
      ensures old(queue.log) <= queue.log
      ensures w.at == if rep[w] > 0 then expiry[w] else old(expiry[w]) - mnNow
    {
      w := timers[HEAP0].w;
      RootExpired();
      RescheduleBeside(w, rep);
    }

    /** Those of the fired timers that do not repeat have a relative time again. */
    ghost predicate RelativeAgain(fired: seq<Watcher>, e0: map<Watcher, int>, rep: map<Watcher, int>)
      reads `mnNow, fired`at
    {
      forall k {:trigger fired[k]} :: 0 <= k < |fired| && fired[k] in rep && fired[k] in e0 && rep[fired[k]] <= 0 ==>
        fired[k].at == e0[fired[k]] - mnNow
    }

    /** FireRoot, and those that fired before stay as they are. */
    method FireNext(rfeeds: seq<Watcher>, ghost e0: map<Watcher, int>, ghost rep: map<Watcher, int>)
      returns (w: Watcher)
      requires RepeatsAre(rep)
      requires Valid() && queue.Ready() && all <= queue.alive && timercnt > 0 && timers[HEAP0].at < mnNow
      requires RelativeAgain(rfeeds, e0, rep) && Progress(e0, rep, expiry, rfeeds, mnNow)
      modifies `timercnt, `expiry, timers, all`active, expiry.Keys`at
      modifies queue`pendings, queue`due, queue`log, all`pending
      ensures Valid() && queue.Ready() && RepeatsAre(rep) && RelativeAgain(rfeeds + [w], e0, rep)
      ensures w in rep && Fires(old(expiry), w, rep[w], mnNow, expiry)
      ensures queue.due == if rep[w] > 0 then old(queue.due) else old(queue.due) - {w}
      ensures old(queue.log) <= queue.log
    {
      ghost var e := expiry;
      w := FireRoot(rep);
      assert forall k {:trigger rfeeds[k]} :: 0 <= k < |rfeeds| ==> rfeeds[k] in rfeeds;
      RelativeNext(rfeeds, w, e0, rep, e);
    }

    /** One more has fired. */
    lemma RelativeNext(rfeeds: seq<Watcher>, w: Watcher, e0: map<Watcher, int>, rep: map<Watcher, int>,
        e: map<Watcher, int>)
      requires RelativeAgain(rfeeds, e0, rep) && Progress(e0, rep, e, rfeeds, mnNow)
      requires w in e && w in rep && (rep[w] <= 0 ==> w.at == e[w] - mnNow)
      ensures RelativeAgain(rfeeds + [w], e0, rep)
    {
      var more, n := rfeeds + [w], |rfeeds|;
      assert more[n] == w && forall k {:trigger more[k]} :: 0 <= k < n ==> more[k] == rfeeds[k];
    }

    /** How far the loop of timers_reify has come: `rfeeds` have fired since the table was e0
        and d0 was due. */
    ghost predicate Firing(rfeeds: seq<Watcher>, e0: map<Watcher, int>, rep: map<Watcher, int>, d0: Table)
      reads this, timers, all, expiry.Keys`active, queue, queue.alive`pending, rfeeds`at
    {
      && Valid() && queue.Ready() && RepeatsAre(rep)
      && Progress(e0, rep, expiry, rfeeds, mnNow) && queue.due == Stopped(d0, rep, rfeeds)
      && RelativeAgain(rfeeds, e0, rep)
    }

    /** One round of the loop of timers_reify. */
    method FireStep(rfeeds: seq<Watcher>, ghost e0: map<Watcher, int>, ghost rep: map<Watcher, int>, ghost d0: Table)
      returns (w: Watcher)
      requires Firing(rfeeds, e0, rep, d0) && all <= queue.alive && timercnt > 0 && timers[HEAP0].at < mnNow
      modifies `timercnt, `expiry, timers, all`active, expiry.Keys`at
      modifies queue`pendings, queue`due, queue`log, all`pending
      ensures Firing(rfeeds + [w], e0, rep, d0) && |Expired(expiry, mnNow)| < |old(Expired(expiry, mnNow))|
      ensures expiry.Keys <= old(expiry.Keys) && old(queue.log) <= queue.log
    {
      ghost var e, d := expiry, queue.due;
      w := FireNext(rfeeds, e0, rep);
      FiresOnce(e0, rep, e, rfeeds, mnNow, w, expiry);
      FewerExpired(e, mnNow, w, rep[w], expiry);
      StoppedOnce(d0, d, rep, rfeeds, w);
    }

    /** The loop of timers_reify; `rfeeds` is the list it leaves for feeding. */
    method FireAll(ghost rep: map<Watcher, int>) returns (rfeeds: seq<Watcher>)
      requires Valid() && queue.Ready() && all <= queue.alive && RepeatsAre(rep)
      modifies `timercnt, `expiry, timers, all`active, expiry.Keys`at
      modifies queue`pendings, queue`due, queue`log, all`pending
      ensures Valid() && queue.Ready() && Expired(expiry, mnNow) == {}
      ensures Progress(old(expiry), rep, expiry, rfeeds, mnNow)
      ensures queue.due == Stopped(old(queue.due), rep, rfeeds)
      ensures RelativeAgain(rfeeds, old(expiry), rep) && old(queue.log) <= queue.log
    {
      rfeeds := [];
      ghost var e0, d0 := expiry, queue.due;
      while timercnt > 0 && timers[HEAP0].at < mnNow
        invariant Firing(rfeeds, e0, rep, d0) && expiry.Keys <= e0.Keys && old(queue.log) <= queue.log
        decreases |Expired(expiry, mnNow)|
      {
        var w := FireStep(rfeeds, e0, rep, d0);
        rfeeds := rfeeds + [w];
      }
      NoneExpired();
    }

    /** timers_reify.  `fired` lists the timers in the order they came off the heap. */
    method TimersReify(ghost rep: map<Watcher, int>) returns (fired: seq<Watcher>)
      requires Valid() && queue.Ready() && all <= queue.alive && RepeatsAre(rep)
      modifies `timercnt, `expiry, timers, all`active, expiry.Keys`at
      modifies queue`pendings, queue`pendingpri, queue`due, queue`log, all`pending
      ensures Valid() && queue.Ready()
      // exactly the expired fire, each once, the earliest first
      ensures (set w | w in fired) == Expired(old(expiry), mnNow) && InExpiryOrder(old(expiry), fired)
      // none is left, and the rest of the table is as it was
      ensures old(expiry.Keys) <= rep.Keys && expiry == Reified(old(expiry), rep, mnNow) && Expired(expiry, mnNow) == {}
      ensures RelativeAgain(fired, old(expiry), rep)
      // they are queued, the latest first
      ensures queue.due == FedFrom(Stopped(old(queue.due), rep, fired), fired, 0, {Timer})
      ensures queue.SlotsReversed(Stopped(old(queue.due), rep, fired), fired, 0)
      ensures old(queue.log) <= queue.log
    {
      fired := FireAll(rep);
      AllFired(old(expiry), rep, expiry, fired, mnNow);
      FeedBeside(fired, Stopped(old(queue.due), rep, fired), old(expiry), rep);
    }

    /** FeedFired leaves the timers alone. */
    method FeedBeside(fired: seq<Watcher>, ghost d: Table, ghost e0: map<Watcher, int>, ghost rep: map<Watcher, int>)
      requires Valid() && RelativeAgain(fired, e0, rep)
      requires queue.Ready() && all <= queue.alive && queue.due == d
      requires forall k {:trigger fired[k]} :: 0 <= k < |fired| ==> fired[k] in all
      requires forall j, k {:trigger fired[j], fired[k]} :: 0 <= j < k < |fired| ==> fired[j] != fired[k]
      modifies queue`pendings, queue`pendingpri, queue`due, queue`log, all`pending
      ensures Valid() && RelativeAgain(fired, e0, rep) && queue.Ready()
      ensures queue.due == FedFrom(d, fired, 0, {Timer}) && queue.SlotsReversed(d, fired, 0)
      ensures old(queue.log) <= queue.log
    {
      FeedFired(fired, d);
    }

    /** Feeds what fired, if anything did. */
    method FeedFired(fired: seq<Watcher>, ghost d: Table)
      requires queue.Ready() && all <= queue.alive && queue.due == d
      requires forall k {:trigger fired[k]} :: 0 <= k < |fired| ==> fired[k] in all
      requires forall j, k {:trigger fired[j], fired[k]} :: 0 <= j < k < |fired| ==> fired[j] != fired[k]
      modifies queue`pendings, queue`pendingpri, queue`due, queue`log, all`pending
      ensures queue.Ready()
      ensures queue.due == FedFrom(d, fired, 0, {Timer}) && queue.SlotsReversed(d, fired, 0)
      ensures old(queue.log) <= queue.log
    {
      if fired != [] {
        queue.FeedReverseDone(fired, {Timer});
      }
    }

    /** The timers that timers_reify queued, in the order of their slots: of two of one
        priority that were not pending before, the earlier sits behind the later. */
    lemma SeatsReversed(d: Table, fired: seq<Watcher>, j: nat, k: nat)
      requires queue.Valid() && queue.SlotsReversed(d, fired, 0)
      requires forall i {:trigger fired[i]} :: 0 <= i < |fired| ==> fired[i] in queue.due
      requires j < k < |fired| && fired[j] !in d && fired[k] !in d && fired[j].priority == fired[k].priority
      ensures queue.Now().Behind(fired[k], fired[j])
    {
      assert queue.WatcherOk(fired[j]) && queue.WatcherOk(fired[k]);
    }

    lemma AllSeatsReversed(d: Table, fired: seq<Watcher>)
      requires queue.Valid() && queue.SlotsReversed(d, fired, 0)
      requires forall i {:trigger fired[i]} :: 0 <= i < |fired| ==> fired[i] in queue.due
      ensures forall j, k {:trigger fired[j], fired[k]} ::
        0 <= j < k < |fired| && fired[j] !in d && fired[k] !in d && fired[j].priority == fired[k].priority ==>
          queue.Now().Behind(fired[k], fired[j])
    {
      forall j, k | 0 <= j < k < |fired| && fired[j] !in d && fired[k] !in d && fired[j].priority == fired[k].priority
        ensures queue.Now().Behind(fired[k], fired[j])
      {
        SeatsReversed(d, fired, j, k);
      }
    }

    /** ev_invoke_pending behind timers_reify, which has queued `fired`. */
    method InvokeFired(script: seq<seq<Act>>, ghost gentle: bool, fired: seq<Watcher>, ghost d: Table)
      returns (rest: seq<seq<Act>>, ghost n: nat, ghost deeds: seq<Deed>)
      requires queue.Ready() && (gentle ==> NoStops(script))
      requires queue.SlotsReversed(d, fired, 0)
      requires queue.due == FedFrom(d, fired, 0, {Timer})
      requires forall j, k {:trigger fired[j], fired[k]} :: 0 <= j < k < |fired| ==> fired[j] != fired[k]
      modifies queue`pendings, queue`pendingpri, queue`due, queue`log, queue`alive, queue`owner, queue`made
      modifies queue.alive`pending, queue.dummy`pending
      ensures queue.Ready() && queue.due == map[] && n == |old(queue.log)| && old(queue.log) <= queue.log
      ensures forall k {:trigger fired[k]} :: 0 <= k < |fired| ==> !Untaken(queue.log, n, |queue.log|, fired[k])
      ensures gentle ==> NoClears(queue.log, n)
      ensures InTurn(queue.log, n, d, fired)
      ensures Ran(script, rest, deeds, old(queue.log), queue.log) && NoneMissed(queue.alive, deeds)
    {
      FedFromIs(d, fired, 0, {Timer});
      AllSeatsReversed(d, fired);
      ghost var m := queue.Now();
      n := m.n;
      rest, deeds := queue.InvokePending(script, gentle);
      forall j, k | 0 <= j < k < |fired| && fired[j].priority == fired[k].priority && fired[j] !in d && fired[k] !in d
        ensures ComesFirst(queue.log, n, fired[j], fired[k])
      {
        BehindComesFirst(queue.log, m, fired[j], fired[k]);
      }
    }

    /** timers_reify, and ev_invoke_pending behind it, for any callbacks.  Of two expired
        timers of one priority that were not pending before, the one that expired no later
        is called first.  The first n entries of the history are those made before
        ev_invoke_pending: after them everybody who fired is due. */
    method ReifyAndInvoke(script: seq<seq<Act>>, ghost rep: map<Watcher, int>, ghost gentle: bool)
      returns (fired: seq<Watcher>, rest: seq<seq<Act>>, ghost n: nat, ghost deeds: seq<Deed>)
      requires Valid() && queue.Ready() && all <= queue.alive && RepeatsAre(rep) && (gentle ==> NoStops(script))
      modifies `timercnt, `expiry, timers, all`active, expiry.Keys`at
      modifies queue`pendings, queue`pendingpri, queue`due, queue`log, queue`alive, queue`owner, queue`made
      modifies queue.alive`pending, queue.dummy`pending
      ensures queue.Ready() && queue.due == map[] && |old(queue.log)| <= n <= |queue.log|
      ensures old(queue.log) <= queue.log[..n]
      ensures (set w | w in fired) == Expired(old(expiry), mnNow) && InExpiryOrder(old(expiry), fired)
      ensures Replay(queue.log[..n]) == FedFrom(Stopped(old(queue.due), rep, fired), fired, 0, {Timer})
      // every one was called since, or stopped by a callback
      ensures forall k {:trigger fired[k]} :: 0 <= k < |fired| ==> !Untaken(queue.log, n, |queue.log|, fired[k])
      ensures gentle ==> NoClears(queue.log, n)
      // in order of expiry
      ensures InTurn(queue.log, n, Stopped(old(queue.due), rep, fired), fired)
      // and each callback did what the script says
      ensures Ran(script, rest, deeds, queue.log[..n], queue.log) && NoneMissed(queue.alive, deeds)
    {
      fired := TimersReify(rep);
      ghost var before := queue.log;
      rest, n, deeds := InvokeFired(script, gentle, fired, Stopped(old(queue.due), rep, fired));
      assert queue.log[..n] == before;
    }

    lemma NoneExpired()
      requires Valid() && (timercnt > 0 ==> timers[HEAP0].at >= mnNow)
      ensures Expired(expiry, mnNow) == {}
    {
      if timercnt > 0 {
        RootHasLeast(timers[..], timercnt, expiry);
      }
      assert forall w :: w in expiry ==> w.active >= HEAP0;
    }
  }
}
