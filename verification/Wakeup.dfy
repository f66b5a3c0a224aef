/** The wake-up protocol between libev's async senders and signal handlers on one side
    and the event loop on the other, as atomic steps in any interleaving. */
module Wakeup {

  /** The two flags evpipe_write is called with: sig_pending and async_pending. */
  datatype Chan = Sig | Async

  /** A signal's `pending` flag or an async watcher's `sent` flag. */
  datatype Item = Item(chan: Chan, idx: nat)

  /** Where a sender is between setting its item's flag and returning. */
  datatype Sender =
    | AtTest(item: Item)      // if (*flag) return
    | AtSetFlag(item: Item)   // *flag = 1
    | AtSetSkip(item: Item)   // pipe_write_skipped = 1
    | AtWanted(item: Item)    // if (pipe_write_wanted)
    | AtClearSkip(item: Item) // pipe_write_skipped = 0
    | AtWrite(item: Item)     // write to the pipe

  /** Where the loop is: ev_run around backend_poll, and pipecb. */
  datatype Loop =
    | Running                          // anywhere else; next: pipe_write_wanted = 1
    | AtTestSkip                       // may it block?
    | Polling(mayBlock: bool)          // in backend_poll
    | AtClearWanted(reported: bool)    // pipe_write_wanted = 0
    | AtReadSkip(reported: bool)       // if (pipe_write_skipped) feed pipe_w
    | CbRead(reported: bool)           // pipecb: read the pipe if it was reported
    | CbSkip                           // pipe_write_skipped = 0
    | CbFlag(chan: Chan)               // if (flag) flag = 0 and scan
    | ScanTest(chan: Chan, left: nat)  // items left-1, left-2, .. still to be tested
    | ScanClear(chan: Chan, left: nat) // item left-1 was set: clear and feed it

  datatype State = State(
    signals: nat,              // how many signals pipecb scans
    asyncs: nat,               // how many async watchers pipecb scans
    sent: set<Item>,           // items set by senders
    flags: set<Chan>,
    skipped: bool,
    wanted: bool,
    pipe: nat,                 // bytes to be read
    senders: map<nat, Sender>, // senders at work
    loop: Loop,
    fed: seq<Item>             // what was fed so far
  )

  function Size(s: State, c: Chan): nat {
    if c == Sig then s.signals else s.asyncs
  }

  ghost predicate Initial(s: State) {
    && s.sent == {} && s.flags == {} && !s.skipped && !s.wanted && s.pipe == 0
    && s.senders == map[] && s.loop == Running && s.fed == []
  }

  datatype Action =
    | Send(id: nat, item: Item)   // a new sender sets its item's flag
    | SenderStep(id: nat)
    | LoopStep(block: bool, reported: bool, left: nat)

  predicate Enabled(s: State, a: Action) {
    match a
    case Send(id, item) => id !in s.senders && item.idx < Size(s, item.chan)
    case SenderStep(id) => id in s.senders
    case LoopStep(block, reported, left) =>
      && (s.loop.Polling? && reported ==> s.pipe > 0)
      // a read takes four bytes, or all of an eventfd
      && (s.loop == CbRead(true) ==> left == 0 || left + 4 == s.pipe)
  }

  function Go(s: State, id: nat, at: Sender): State {
    s.(senders := s.senders[id := at])
  }

  function Return(s: State, id: nat): State {
    s.(senders := s.senders - {id})
  }

  /** One step of evpipe_write. */
  function SenderDo(s: State, id: nat): State
    requires id in s.senders
  {
    match s.senders[id]
    case AtTest(i) => if i.chan in s.flags then Return(s, id) else Go(s, id, AtSetFlag(i))
    case AtSetFlag(i) => Go(s, id, AtSetSkip(i)).(flags := s.flags + {i.chan})
    case AtSetSkip(i) => Go(s, id, AtWanted(i)).(skipped := true)
    case AtWanted(i) => if s.wanted then Go(s, id, AtClearSkip(i)) else Return(s, id)
    case AtClearSkip(i) => Go(s, id, AtWrite(i)).(skipped := false)
    case AtWrite(i) => Return(s, id).(pipe := s.pipe + 1)
  }

  /** Behind the scan of one flag comes the test of the other, or the callback ends. */
  function AfterScan(c: Chan): Loop {
    if c == Sig then CbFlag(Async) else Running
  }

  /** One step of the loop. */
  function LoopDo(s: State, block: bool, reported: bool, left: nat): State {
    match s.loop
    case Running => s.(wanted := true, loop := AtTestSkip)
    case AtTestSkip => s.(loop := Polling(block && !s.skipped))
    case Polling(_) => s.(loop := AtClearWanted(reported))
    case AtClearWanted(r) => s.(wanted := false, loop := AtReadSkip(r))
    case AtReadSkip(r) => s.(loop := if r || s.skipped then CbRead(r) else Running)
    case CbRead(r) => s.(pipe := if r then left else s.pipe, loop := CbSkip)
    case CbSkip => s.(skipped := false, loop := CbFlag(Sig))
    case CbFlag(c) =>
      if c in s.flags then s.(flags := s.flags - {c}, loop := ScanTest(c, Size(s, c))) else s.(loop := AfterScan(c))
    case ScanTest(c, n) =>
      if n == 0 then s.(loop := AfterScan(c))
      else if Item(c, n - 1) in s.sent then s.(loop := ScanClear(c, n))
      else s.(loop := ScanTest(c, n - 1))
    case ScanClear(c, n) =>
      if n == 0 then s.(loop := AfterScan(c))
      else s.(sent := s.sent - {Item(c, n - 1)}, fed := s.fed + [Item(c, n - 1)], loop := ScanTest(c, n - 1))
  }

  function Do(s: State, a: Action): State
    requires Enabled(s, a)
  {
    match a
    case Send(id, item) => Go(s, id, AtTest(item)).(sent := s.sent + {item})
    case SenderStep(id) => SenderDo(s, id)
    case LoopStep(block, reported, left) => LoopDo(s, block, reported, left)
  }

  /** The states of a run: from `s` by the actions `acts`. */
  ghost predicate Runs(s: State, acts: seq<Action>, t: State)
    decreases |acts|
  {
    if acts == [] then s == t else Enabled(s, acts[0]) && Runs(Do(s, acts[0]), acts[1..], t)
  }

  // ----- the invariant

  /** The running callback has still to test flag c. */
  predicate WillTest(l: Loop, c: Chan) {
    match l
    case CbRead(_) => true
    case CbSkip => true
    case CbFlag(d) => d == c || d == Sig
    case ScanTest(d, _) => d == Sig && c == Async
    case ScanClear(d, _) => d == Sig && c == Async
    case _ => false
  }

  /** The running scan has still to come to item i. */
  predicate WillScan(l: Loop, i: Item) {
    match l
    case ScanTest(c, n) => c == i.chan && i.idx < n
    case ScanClear(c, n) => c == i.chan && i.idx < n
    case _ => false
  }

  /** Some sender has seen its flag unset and has yet to set it, or has yet to look. */
  ghost predicate Raising(s: State, c: Chan) {
    exists id {:trigger s.senders[id]} :: id in s.senders && s.senders[id].item.chan == c
      && (s.senders[id].AtTest? || s.senders[id].AtSetFlag?)
  }

  /** Some sender is about to set the skip flag, or to write to the pipe. */
  ghost predicate Waking(s: State) {
    exists id {:trigger s.senders[id]} :: id in s.senders
      && (s.senders[id].AtSetSkip? || s.senders[id].AtClearSkip? || s.senders[id].AtWrite?)
  }

  /** Some sender has set the skip flag and has yet to clear it again. */
  ghost predicate Skipping(s: State) {
    exists id {:trigger s.senders[id]} :: id in s.senders && (s.senders[id].AtWanted? || s.senders[id].AtClearSkip?)
  }

  ghost predicate Inv(s: State) {
    && (forall i :: i in s.sent ==> i.idx < Size(s, i.chan))
    && (s.loop.ScanClear? ==> s.loop.left > 0 && Item(s.loop.chan, s.loop.left - 1) in s.sent)
    // a set item has its flag set, or soon will, or the scan is yet to come to it
    && (forall i :: i in s.sent ==> i.chan in s.flags || Raising(s, i.chan) || WillScan(s.loop, i))
    // a set flag will be seen: through the pipe, the skip flag, or this very callback
    && (forall c :: c in s.flags ==> s.pipe > 0 || s.skipped || Waking(s) || WillTest(s.loop, c))
    // the loop wants to be woken just around the poll; while it may block a skip is being undone
    && (s.loop.AtTestSkip? || s.loop.Polling? || s.loop.AtClearWanted? <==> s.wanted)
    && (s.loop == Polling(true) && s.skipped ==> Skipping(s))
  }

  lemma InitialInv(s: State)
    requires Initial(s)
    ensures Inv(s)
  {
  }

  /** A sender that did not move still witnesses what it did. */
  lemma Untouched(s: State, t: State, id: nat)
    requires forall j {:trigger t.senders[j]} {:trigger s.senders[j]} :: j != id && j in s.senders ==>
      j in t.senders && t.senders[j] == s.senders[j]
    requires id in s.senders
    ensures forall c :: Raising(s, c) ==>
      Raising(t, c) || (s.senders[id].item.chan == c && (s.senders[id].AtTest? || s.senders[id].AtSetFlag?))
    ensures Waking(s) ==> Waking(t) || s.senders[id].AtSetSkip? || s.senders[id].AtClearSkip? || s.senders[id].AtWrite?
    ensures Skipping(s) ==> Skipping(t) || s.senders[id].AtWanted? || s.senders[id].AtClearSkip?
  {
  }

  lemma SendKeeps(s: State, id: nat, item: Item)
    requires Inv(s) && Enabled(s, Send(id, item))
    ensures Inv(Do(s, Send(id, item)))
  {
    var t := Do(s, Send(id, item));
    assert t.senders[id] == AtTest(item);
    assert forall j {:trigger t.senders[j]} :: j in s.senders ==> t.senders[j] == s.senders[j];
    forall c | Raising(s, c) ensures Raising(t, c) {
      var j :| j in s.senders && s.senders[j].item.chan == c && (s.senders[j].AtTest? || s.senders[j].AtSetFlag?);
      assert t.senders[j] == s.senders[j];
    }
    if Waking(s) {
      var j :| j in s.senders && (s.senders[j].AtSetSkip? || s.senders[j].AtClearSkip? || s.senders[j].AtWrite?);
      assert t.senders[j] == s.senders[j];
    }
    if Skipping(s) {
      var j :| j in s.senders && (s.senders[j].AtWanted? || s.senders[j].AtClearSkip?);
      assert t.senders[j] == s.senders[j];
    }
  }

  /** The first steps of a sender, up to setting its flag. */
  lemma RaiserKeeps(s: State, id: nat)
    requires Inv(s) && id in s.senders && (s.senders[id].AtTest? || s.senders[id].AtSetFlag?)
    ensures Inv(SenderDo(s, id))
  {
    var t := SenderDo(s, id);
    Untouched(s, t, id);
    if id in t.senders { var _ := t.senders[id]; }
  }

  /** The later steps of a sender, from setting the skip flag. */
  lemma WakerKeeps(s: State, id: nat)
    requires Inv(s) && id in s.senders && !s.senders[id].AtTest? && !s.senders[id].AtSetFlag?
    ensures Inv(SenderDo(s, id))
  {
    var t := SenderDo(s, id);
    Untouched(s, t, id);
    if id in t.senders { var _ := t.senders[id]; }
    assert t.flags == s.flags && t.sent == s.sent && t.loop == s.loop && t.wanted == s.wanted;
    assert forall c :: Raising(s, c) ==> Raising(t, c);
  }

  /** The loop's steps around the poll. */
  lemma LoopKeepsPoll(s: State, block: bool, reported: bool, left: nat)
    requires Inv(s) && Enabled(s, LoopStep(block, reported, left))
    requires s.loop.Running? || s.loop.AtTestSkip? || s.loop.Polling? || s.loop.AtClearWanted?
    ensures Inv(LoopDo(s, block, reported, left))
  {
    var t := LoopDo(s, block, reported, left);
    assert forall c :: Raising(t, c) == Raising(s, c);
    assert Waking(t) == Waking(s) && Skipping(t) == Skipping(s);
  }

  /** Its steps into the callback, up to the test of a flag. */
  lemma LoopKeepsEntry(s: State, block: bool, reported: bool, left: nat)
    requires Inv(s) && Enabled(s, LoopStep(block, reported, left))
    requires s.loop.AtReadSkip? || s.loop.CbRead? || s.loop.CbSkip?
    ensures Inv(LoopDo(s, block, reported, left))
  {
    var t := LoopDo(s, block, reported, left);
    assert forall c :: Raising(t, c) == Raising(s, c);
    assert Waking(t) == Waking(s) && Skipping(t) == Skipping(s);
  }

  /** The test of a flag. */
  lemma LoopKeepsTest(s: State)
    requires Inv(s) && s.loop.CbFlag?
    ensures Inv(LoopDo(s, false, false, 0))
  {
    var t := LoopDo(s, false, false, 0);
    assert forall c :: Raising(t, c) == Raising(s, c);
    assert Waking(t) == Waking(s) && Skipping(t) == Skipping(s);
  }

  /** The loop's steps in the scans. */
  lemma LoopKeepsScan(s: State)
    requires Inv(s) && (s.loop.ScanTest? || s.loop.ScanClear?)
    ensures Inv(LoopDo(s, false, false, 0))
  {
    var t := LoopDo(s, false, false, 0);
    assert forall c :: Raising(t, c) == Raising(s, c);
    assert Waking(t) == Waking(s) && Skipping(t) == Skipping(s);
  }

  /** Every step keeps the invariant. */
  lemma StepKeeps(s: State, a: Action)
    requires Inv(s) && Enabled(s, a)
    ensures Inv(Do(s, a))
  {
    match a
    case Send(id, item) => SendKeeps(s, id, item);
    case SenderStep(id) =>
      if s.senders[id].AtTest? || s.senders[id].AtSetFlag? {
        RaiserKeeps(s, id);
      } else {
        WakerKeeps(s, id);
      }
    case LoopStep(block, reported, left) =>
      if s.loop.CbFlag? {
        LoopKeepsTest(s);
      } else if s.loop.ScanTest? || s.loop.ScanClear? {
        LoopKeepsScan(s);
      } else if s.loop.AtReadSkip? || s.loop.CbRead? || s.loop.CbSkip? {
        LoopKeepsEntry(s, block, reported, left);
      } else {
        LoopKeepsPoll(s, block, reported, left);
      }
  }

  lemma {:induction false} RunKeeps(s: State, acts: seq<Action>, t: State)
    requires Inv(s) && Runs(s, acts, t)
    ensures Inv(t)
    decreases |acts|
  {
    if acts != [] {
      StepKeeps(s, acts[0]);
      RunKeeps(Do(s, acts[0]), acts[1..], t);
    }
  }

  // ----- the theorems

  /** No lost wake-up.  In every run: when the loop is in backend_poll and may block,
      and some item is set, then the pipe is readable, or a sender is still inside
      its call. */
  lemma NoLostWakeup(s: State, acts: seq<Action>, t: State)
    requires Initial(s) && Runs(s, acts, t)
    requires t.loop == Polling(true) && t.sent != {}
    ensures t.pipe > 0 || t.senders != map[]
    ensures t.pipe == 0 ==> (exists i :: i in t.sent && Raising(t, i.chan)) || Waking(t) || Skipping(t)
  {
    InitialInv(s);
    RunKeeps(s, acts, t);
    var i :| i in t.sent;
    assert i.chan in t.flags || Raising(t, i.chan);
  }

  /** No step of the loop. */
  predicate NoLoopSteps(acts: seq<Action>) {
    forall k {:trigger acts[k]} :: 0 <= k < |acts| ==> !acts[k].LoopStep?
  }

  /** The sender has found its flag unset, and has yet to write to the pipe. */
  predicate WillWrite(s: State, id: nat) {
    id in s.senders && !s.senders[id].AtTest?
  }

  lemma SenderStepWrites(s: State, a: Action, id: nat)
    requires Enabled(s, a) && !a.LoopStep? && s.wanted
    ensures Do(s, a).pipe >= s.pipe && Do(s, a).wanted && Do(s, a).loop == s.loop
    ensures WillWrite(s, id) ==> WillWrite(Do(s, a), id) || Do(s, a).pipe > s.pipe
  {
  }

  /** While the loop is blocked, a sender that has found its flag unset does not return
      without having written to the pipe, whatever the others do. */
  lemma {:induction false} BlockedSendersWrite(s: State, acts: seq<Action>, t: State, id: nat)
    requires Inv(s) && Runs(s, acts, t) && s.loop == Polling(true) && NoLoopSteps(acts) && WillWrite(s, id)
    ensures t.pipe > s.pipe || WillWrite(t, id)
    decreases |acts|
  {
    if acts != [] {
      var u := Do(s, acts[0]);
      StepKeeps(s, acts[0]);
      SenderStepWrites(s, acts[0], id);
      assert forall k {:trigger acts[1..][k]} :: 0 <= k < |acts| - 1 ==> acts[1..][k] == acts[k + 1];
      if WillWrite(u, id) {
        BlockedSendersWrite(u, acts[1..], t, id);
      } else {
        PipeGrows(u, acts[1..], t);
      }
    }
  }

  lemma {:induction false} PipeGrows(s: State, acts: seq<Action>, t: State)
    requires s.wanted && Runs(s, acts, t) && NoLoopSteps(acts)
    ensures t.pipe >= s.pipe && t.loop == s.loop
    decreases |acts|
  {
    if acts != [] {
      SenderStepWrites(s, acts[0], 0);
      assert forall k {:trigger acts[1..][k]} :: 0 <= k < |acts| - 1 ==> acts[1..][k] == acts[k + 1];
      PipeGrows(Do(s, acts[0]), acts[1..], t);
    }
  }

  /** Item i is set and this very callback will feed it. */
  ghost predicate Due(s: State, i: Item) {
    i in s.sent && ((i.chan in s.flags && WillTest(s.loop, i.chan)) || WillScan(s.loop, i))
  }

  lemma SenderKeepsDue(s: State, id: nat, i: Item)
    requires id in s.senders && Due(s, i)
    ensures SenderDo(s, id).fed == s.fed && Due(SenderDo(s, id), i)
  {
    var t := SenderDo(s, id);
    assert t.loop == s.loop && t.sent == s.sent && t.flags >= s.flags;
  }

  lemma LoopKeepsDue(s: State, block: bool, reported: bool, left: nat, i: Item)
    requires Inv(s) && Enabled(s, LoopStep(block, reported, left)) && Due(s, i)
    ensures s.fed <= LoopDo(s, block, reported, left).fed
    ensures Due(LoopDo(s, block, reported, left), i) || LoopDo(s, block, reported, left).fed == s.fed + [i]
  {
    if s.loop.CbFlag? {
      assert i.chan in s.flags && WillTest(s.loop, i.chan);
    } else if s.loop.ScanTest? || s.loop.ScanClear? {
      var t := LoopDo(s, block, reported, left);
      assert t.flags == s.flags;
    }
  }

  lemma StepKeepsDue(s: State, a: Action, i: Item)
    requires Inv(s) && Enabled(s, a) && Due(s, i)
    ensures s.fed <= Do(s, a).fed
    ensures Due(Do(s, a), i) || Do(s, a).fed == s.fed + [i]
  {
    match a
    case Send(id, item) => assert Do(s, a).loop == s.loop && Do(s, a).flags == s.flags;
    case SenderStep(id) => SenderKeepsDue(s, id, i);
    case LoopStep(block, reported, left) => LoopKeepsDue(s, block, reported, left, i);
  }

  lemma {:induction false} FedGrows(s: State, acts: seq<Action>, t: State)
    requires Runs(s, acts, t)
    ensures s.fed <= t.fed
    decreases |acts|
  {
    if acts != [] {
      FedGrows(Do(s, acts[0]), acts[1..], t);
    }
  }

  lemma {:induction false} DueIsFed(s: State, acts: seq<Action>, t: State, i: Item)
    requires Inv(s) && Runs(s, acts, t) && Due(s, i)
    ensures s.fed <= t.fed && (Due(t, i) || i in t.fed[|s.fed|..])
    decreases |acts|
  {
    if acts != [] {
      var u := Do(s, acts[0]);
      StepKeeps(s, acts[0]);
      StepKeepsDue(s, acts[0], i);
      FedGrows(u, acts[1..], t);
      if Due(u, i) {
        DueIsFed(u, acts[1..], t, i);
        assert forall j {:trigger t.fed[j]} :: |u.fed| <= j < |t.fed| ==>
          t.fed[|s.fed|..][j - |s.fed|] == t.fed[|u.fed|..][j - |u.fed|];
      } else {
        assert t.fed[|s.fed|..][0] == u.fed[|s.fed|] == i;
      }
    }
  }

  /** Every set item is consumed.  When pipecb begins and no sender of the item's kind
      is between setting an item and setting the flag, the item is fed before that
      callback ends, whatever senders do meanwhile. */
  lemma SentIsConsumed(s0: State, before: seq<Action>, s: State, acts: seq<Action>, t: State, i: Item)
    requires Initial(s0) && Runs(s0, before, s) && s.loop.CbRead?
    requires i in s.sent && !Raising(s, i.chan)
    requires Runs(s, acts, t) && t.loop == Running
    ensures s.fed <= t.fed && i in t.fed[|s.fed|..]
  {
    InitialInv(s0);
    RunKeeps(s0, before, s);
    DueIsFed(s, acts, t, i);
  }

  /** After a poll, with no sender at work, a set item sends the loop into pipecb, or
      the pipe is readable for the next poll to report. */
  lemma SetItemCallsBack(s0: State, acts: seq<Action>, s: State, i: Item)
    requires Initial(s0) && Runs(s0, acts, s) && s.loop.AtReadSkip? && s.senders == map[] && i in s.sent
    ensures LoopDo(s, false, false, 0).loop.CbRead? || s.pipe > 0
  {
    InitialInv(s0);
    RunKeeps(s0, acts, s);
    assert i.chan in s.flags;
  }

  /** Item i is set, and the loop is on its way to a callback that will feed it. */
  ghost predicate Coming(s: State, i: Item) {
    Due(s, i) || (i in s.sent && i.chan in s.flags && (s.loop == AtClearWanted(true) || s.loop == AtReadSkip(true)))
  }

  lemma StepKeepsComing(s: State, a: Action, i: Item)
    requires Inv(s) && Enabled(s, a) && Coming(s, i)
    ensures s.fed <= Do(s, a).fed
    ensures Coming(Do(s, a), i) || Do(s, a).fed == s.fed + [i]
  {
    if Due(s, i) {
      StepKeepsDue(s, a, i);
    } else if a.SenderStep? {
      assert SenderDo(s, a.id).flags >= s.flags;
    }
  }

  /** Once the kernel has reported the pipe, whatever is set with its flag is fed before
      the loop is done, whatever senders do meanwhile. */
  lemma {:induction false} ComingIsFed(s: State, acts: seq<Action>, t: State, i: Item)
    requires Inv(s) && Runs(s, acts, t) && Coming(s, i)
    ensures s.fed <= t.fed && (Coming(t, i) || i in t.fed[|s.fed|..])
    decreases |acts|
  {
    if acts != [] {
      var u := Do(s, acts[0]);
      StepKeeps(s, acts[0]);
      StepKeepsComing(s, acts[0], i);
      FedGrows(u, acts[1..], t);
      if Coming(u, i) {
        ComingIsFed(u, acts[1..], t, i);
        FedSince(s.fed, u.fed, t.fed, i);
      } else {
        assert t.fed[|s.fed|..][0] == u.fed[|s.fed|] == i;
      }
    }
  }

  lemma FedSince(a: seq<Item>, b: seq<Item>, c: seq<Item>, i: Item)
    requires a <= b <= c
    ensures i in c[|b|..] ==> i in c[|a|..]
  {
    if i in c[|b|..] {
      var k :| 0 <= k < |c| - |b| && c[|b|..][k] == i;
      assert c[|a|..][k + |b| - |a|] == i;
    }
  }

  /** A run of the loop alone, in which every poll reports the pipe just if it is readable. */
  ghost predicate Alone(s: State, acts: seq<Action>)
    decreases |acts|
  {
    acts == [] || (
      && acts[0].LoopStep? && Enabled(s, acts[0])
      && (s.loop.Polling? ==> (acts[0].reported <==> s.pipe > 0))
      && Alone(Do(s, acts[0]), acts[1..]))
  }

  /** No sender is at work, item i is set, and the loop is on its way to a poll or comes
      from one that did not report the pipe. */
  ghost predicate Ahead(s: State, i: Item) {
    && s.senders == map[] && i in s.sent && i.chan in s.flags
    && match s.loop
       case Running => true
       case AtTestSkip => true
       case Polling(_) => true
       case AtClearWanted(r) => !r && s.skipped
       case AtReadSkip(r) => !r && s.skipped
       case _ => false
  }

  lemma StepKeepsAhead(s: State, a: Action, i: Item)
    requires Inv(s) && Enabled(s, a) && Ahead(s, i) && a.LoopStep?
    requires s.loop.Polling? ==> (a.reported <==> s.pipe > 0)
    ensures Do(s, a).fed == s.fed && Do(s, a).loop != Running
    ensures Ahead(Do(s, a), i) || Coming(Do(s, a), i)
  {
    assert s.pipe > 0 || s.skipped;
  }

  lemma {:induction false} AheadIsFed(s: State, acts: seq<Action>, t: State, i: Item)
    requires Inv(s) && Runs(s, acts, t) && Alone(s, acts) && Ahead(s, i)
    requires t.loop == Running && (s.loop == Running ==> acts != [])
    ensures s.fed <= t.fed && i in t.fed[|s.fed|..]
    decreases |acts|
  {
    var u := Do(s, acts[0]);
    StepKeeps(s, acts[0]);
    StepKeepsAhead(s, acts[0], i);
    if Ahead(u, i) {
      AheadIsFed(u, acts[1..], t, i);
    } else {
      ComingIsFed(u, acts[1..], t, i);
    }
  }

  /** Every sent flag is consumed.  When all senders have returned, the next round of the
      loop feeds every item that is set, without the kernel having to be asked twice. */
  lemma NextRoundFeeds(s0: State, before: seq<Action>, s: State, acts: seq<Action>, t: State, i: Item)
    requires Initial(s0) && Runs(s0, before, s) && s.loop == Running && s.senders == map[] && i in s.sent
    requires Runs(s, acts, t) && Alone(s, acts) && acts != [] && t.loop == Running
    ensures s.fed <= t.fed && i in t.fed[|s.fed|..]
  {
    InitialInv(s0);
    RunKeeps(s0, before, s);
    AheadIsFed(s, acts, t, i);
  }

  /** When a poll reports the pipe, every item set with its flag is fed before the loop is
      done, whatever senders do meanwhile. */
  lemma ReportFeeds(s: State, acts: seq<Action>, t: State, i: Item)
    requires Inv(s) && s.loop.Polling? && i in s.sent && i.chan in s.flags
    requires Runs(s, acts, t) && acts != [] && acts[0].LoopStep? && acts[0].reported && t.loop == Running
    ensures s.fed <= t.fed && i in t.fed[|s.fed|..]
  {
    var u := Do(s, acts[0]);
    StepKeeps(s, acts[0]);
    assert u.loop == AtClearWanted(true) && u.sent == s.sent && u.flags == s.flags && u.fed == s.fed;
    ComingIsFed(u, acts[1..], t, i);
  }

  /** With no sender at work and no callback under way, a set item has its flag set. */
  lemma FlagIsSet(s: State, i: Item)
    requires Inv(s) && s.senders == map[] && !WillScan(s.loop, i) && i in s.sent
    ensures i.chan in s.flags && (s.loop == Polling(true) ==> s.pipe > 0)
  {
    assert !Raising(s, i.chan);
  }

  /** A blocked loop is woken.  Some item is set while it may block; when all senders have
      returned the pipe is readable, and once the poll reports it the item is fed before
      the loop is done, whatever new senders do meanwhile. */
  lemma BlockedIsWoken(s0: State, before: seq<Action>, s: State, sending: seq<Action>, u: State,
      acts: seq<Action>, t: State, i: Item)
    requires Initial(s0) && Runs(s0, before, s) && s.loop == Polling(true) && i in s.sent
    requires Runs(s, sending, u) && NoLoopSteps(sending) && u.senders == map[]
    requires Runs(u, acts, t) && acts != [] && acts[0].LoopStep? && t.loop == Running
    ensures u.pipe > 0
    ensures acts[0].reported ==> u.fed <= t.fed && i in t.fed[|u.fed|..]
  {
    StillBlocked(s0, before, s, sending, u, i);
    FlagIsSet(u, i);
    if acts[0].reported {
      ReportFeeds(u, acts, t, i);
    }
  }

  lemma StillBlocked(s0: State, before: seq<Action>, s: State, sending: seq<Action>, u: State, i: Item)
    requires Initial(s0) && Runs(s0, before, s) && s.loop == Polling(true) && i in s.sent
    requires Runs(s, sending, u) && NoLoopSteps(sending)
    ensures Inv(u) && u.loop == Polling(true) && i in u.sent
  {
    InitialInv(s0);
    RunKeeps(s0, before, s);
    PollWants(s);
    RunKeeps(s, sending, u);
    PipeGrows(s, sending, u);
    SentStays(s, sending, u, i);
  }

  lemma PollWants(s: State)
    requires Inv(s) && s.loop.Polling?
    ensures s.wanted
  {
  }

  lemma {:induction false} SentStays(s: State, acts: seq<Action>, t: State, i: Item)
    requires Runs(s, acts, t) && NoLoopSteps(acts) && i in s.sent
    ensures i in t.sent
    decreases |acts|
  {
    if acts != [] {
      assert forall k {:trigger acts[1..][k]} :: 0 <= k < |acts| - 1 ==> acts[1..][k] == acts[k + 1];
      SentStays(Do(s, acts[0]), acts[1..], t, i);
    }
  }

  // ----- nothing is fed that was not sent

  function Sends(acts: seq<Action>, i: Item): nat {
    if acts == [] then 0 else (if acts[0].Send? && acts[0].item == i then 1 else 0) + Sends(acts[1..], i)
  }

  /** How often item i was fed, and once more if it is set. */
  function Outstanding(s: State, i: Item): nat {
    multiset(s.fed)[i] + if i in s.sent then 1 else 0
  }

  lemma MoreFed(fed: seq<Item>, x: Item, more: seq<Item>, i: Item)
    requires more == fed + [x]
    ensures multiset(more)[i] == multiset(fed)[i] + if x == i then 1 else 0
  {
  }

  lemma StepFeedsSent(s: State, a: Action, i: Item)
    requires Inv(s) && Enabled(s, a)
    ensures Outstanding(Do(s, a), i) <= Outstanding(s, i) + if a.Send? && a.item == i then 1 else 0
  {
    var t := Do(s, a);
    if t.fed != s.fed {
      MoreFed(s.fed, t.fed[|s.fed|], t.fed, i);
    }
  }

  /** Sends coalesce, but none is fed twice. */
  lemma {:induction false} FedAtMostSent(s: State, acts: seq<Action>, t: State, i: Item)
    requires Inv(s) && Runs(s, acts, t)
    ensures Outstanding(t, i) <= Outstanding(s, i) + Sends(acts, i)
    decreases |acts|
  {
    if acts != [] {
      StepKeeps(s, acts[0]);
      StepFeedsSent(s, acts[0], i);
      FedAtMostSent(Do(s, acts[0]), acts[1..], t, i);
    }
  }

  // ----- what was sent is fed

  lemma StepLosesNone(s: State, a: Action, i: Item)
    requires Inv(s) && Enabled(s, a) && (i in s.sent || (a.Send? && a.item == i))
    ensures i in Do(s, a).sent || Do(s, a).fed == s.fed + [i]
  {
  }

  lemma FedThen(a: seq<Item>, b: seq<Item>, c: seq<Item>, i: Item)
    requires a <= b <= c && (i in c[|b|..] || b == a + [i])
    ensures i in c[|a|..]
  {
    FedSince(a, b, c, i);
    if i !in c[|b|..] {
      assert c[|a|] == i;
    }
  }

  /** No send is lost: what was set or sent is set still, or was fed since. */
  lemma {:induction false} NoneLost(s: State, acts: seq<Action>, t: State, i: Item)
    requires Inv(s) && Runs(s, acts, t) && (i in s.sent || Sends(acts, i) > 0)
    ensures s.fed <= t.fed && (i in t.sent || i in t.fed[|s.fed|..])
    decreases |acts|
  {
    FedGrows(s, acts, t);
    if acts != [] {
      var u := Do(s, acts[0]);
      StepKeeps(s, acts[0]);
      FedGrows(s, [acts[0]], u);
      FedGrows(u, acts[1..], t);
      if i in u.sent || Sends(acts[1..], i) > 0 {
        NoneLost(u, acts[1..], t, i);
      } else {
        StepLosesNone(s, acts[0], i);
      }
      if i !in t.sent { FedThen(s.fed, u.fed, t.fed, i); }
    }
  }

  // ----- the loop comes to rest

  /** A run in which no poll reports the pipe and no sender sets the skip flag. */
  ghost predicate Uncalled(s: State, acts: seq<Action>)
    decreases |acts|
  {
    acts == [] || (
      && Enabled(s, acts[0])
      && !(acts[0].LoopStep? && s.loop.Polling? && acts[0].reported)
      && !(acts[0].SenderStep? && s.senders[acts[0].id].AtSetSkip?)
      && Uncalled(Do(s, acts[0]), acts[1..]))
  }

  /** Nothing calls for pipecb. */
  predicate Calm(s: State) {
    && !s.skipped && !s.loop.CbRead? && !s.loop.CbSkip?
    && s.loop != AtClearWanted(true) && s.loop != AtReadSkip(true)
  }

  lemma {:induction false} CalmStays(s: State, acts: seq<Action>, t: State)
    requires Calm(s) && Runs(s, acts, t) && Uncalled(s, acts)
    ensures Calm(t)
    decreases |acts|
  {
    if acts != [] {
      CalmStays(Do(s, acts[0]), acts[1..], t);
    }
  }

  /** Pipecb is entered only for a reason: since it last reset the skip flag, in state s, the
      pipe was reported or a sender set that flag again. */
  lemma NoNeedlessCall(s: State, acts: seq<Action>, t: State)
    requires s.loop == CbSkip && Runs(LoopDo(s, true, false, 0), acts, t) && Uncalled(LoopDo(s, true, false, 0), acts)
    ensures !t.loop.CbRead? && !t.loop.CbSkip? && !t.skipped
  {
    CalmStays(LoopDo(s, true, false, 0), acts, t);
  }

  /** And without such a reason the loop may block, just if it is asked to. */
  lemma BlocksAgain(s: State, acts: seq<Action>, t: State, block: bool)
    requires s.loop == CbSkip && Runs(LoopDo(s, true, false, 0), acts, t) && Uncalled(LoopDo(s, true, false, 0), acts)
    ensures t.loop == AtTestSkip ==> LoopDo(t, block, false, 0).loop == Polling(block)
    ensures t.loop == Running ==> LoopDo(LoopDo(t, block, false, 0), block, false, 0).loop == Polling(block)
  {
    NoNeedlessCall(s, acts, t);
  }

  /** The loop sleeps in the backend, and the pipe is empty. */
  predicate Asleep(s: State) {
    s.loop == Polling(true) && s.pipe == 0
  }

  /** Then nothing is left undone, if no sender is at work. */
  lemma AsleepIsDone(s: State, acts: seq<Action>, t: State)
    requires Initial(s) && Runs(s, acts, t) && Asleep(t) && t.senders == map[]
    ensures t.sent == {} && t.flags == {} && !t.skipped
  {
    InitialInv(s);
    RunKeeps(s, acts, t);
    if t.sent != {} {
      var i :| i in t.sent;
      FlagIsSet(t, i);
    }
  }

  /** All that was sent since the start has been fed. */
  lemma AllIsFed(s: State, acts: seq<Action>, t: State, i: Item)
    requires Initial(s) && Runs(s, acts, t) && Asleep(t) && t.senders == map[] && Sends(acts, i) > 0
    ensures i in t.fed
  {
    InitialInv(s);
    AsleepIsDone(s, acts, t);
    NoneLost(s, acts, t, i);
  }

  /** In this run of the loop alone, which may always block, it never sleeps. */
  ghost predicate Restless(s: State, acts: seq<Action>)
    requires Alone(s, acts)
    decreases |acts|
  {
    !Asleep(s) && (acts == [] || (acts[0].block && Restless(Do(s, acts[0]), acts[1..])))
  }

  /** How many rounds of the loop are begun. */
  ghost function Rounds(s: State, acts: seq<Action>): nat
    requires Alone(s, acts)
    decreases |acts|
  {
    if acts == [] then 0 else (if s.loop == Running then 1 else 0) + Rounds(Do(s, acts[0]), acts[1..])
  }

  /** The loop left alone since it was last Running: it polls and is called for a reason. */
  predicate OnTrack(s: State) {
    match s.loop
    case Polling(b) => b == !s.skipped
    case AtClearWanted(r) => (r <==> s.pipe > 0) && (r || s.skipped)
    case AtReadSkip(r) => (r <==> s.pipe > 0) && (r || s.skipped)
    case CbRead(r) => (r <==> s.pipe > 0) && (r || s.skipped)
    case CbFlag(_) => !s.skipped
    case ScanTest(_, _) => !s.skipped
    case ScanClear(_, _) => !s.skipped
    case _ => true
  }

  /** How many more rounds can begin before it sleeps. */
  function Left(s: State): nat {
    match s.loop
    case Running => s.pipe + (if s.skipped then 1 else 0) + 1
    case CbSkip => s.pipe + 1
    case CbFlag(_) => s.pipe + 1
    case ScanTest(_, _) => s.pipe + 1
    case ScanClear(_, _) => s.pipe + 1
    case _ => s.pipe + if s.skipped then 1 else 0
  }

  lemma StepComesCloser(s: State, a: Action)
    requires OnTrack(s) && Enabled(s, a) && a.LoopStep? && a.block && !Asleep(s)
    requires s.loop.Polling? ==> (a.reported <==> s.pipe > 0)
    ensures OnTrack(Do(s, a)) && Left(Do(s, a)) + (if s.loop == Running then 1 else 0) <= Left(s)
  {
  }

  lemma {:induction false} RoundsLeft(s: State, acts: seq<Action>)
    requires OnTrack(s) && Alone(s, acts) && Restless(s, acts)
    ensures Rounds(s, acts) <= Left(s)
    decreases |acts|
  {
    if acts != [] {
      StepComesCloser(s, acts[0]);
      RoundsLeft(Do(s, acts[0]), acts[1..]);
    }
  }

  /** Left alone the loop goes to sleep: it cannot begin more rounds without that than there
      are bytes in the pipe and two. */
  lemma GoesToSleep(s: State, acts: seq<Action>)
    requires s.loop == Running && Alone(s, acts) && Restless(s, acts)
    ensures Rounds(s, acts) <= s.pipe + 2
  {
    RoundsLeft(s, acts);
  }

  /** How many steps the loop takes at most from the scan of n items, or from the test of a flag,
      to the end of the callback. */
  function Scanning(s: State, c: Chan, n: nat): nat {
    2 * n + 1 + if c == Sig then 2 * s.asyncs + 2 else 0
  }

  function Testing(s: State, c: Chan): nat {
    2 * s.asyncs + 2 + if c == Sig then 2 * s.signals + 2 else 0
  }

  /** How many steps at most to the end of the round. */
  function RoundLeft(s: State): nat {
    match s.loop
    case Running => 0
    case AtTestSkip => Testing(s, Sig) + 6
    case Polling(_) => Testing(s, Sig) + 5
    case AtClearWanted(_) => Testing(s, Sig) + 4
    case AtReadSkip(_) => Testing(s, Sig) + 3
    case CbRead(_) => Testing(s, Sig) + 2
    case CbSkip => Testing(s, Sig) + 1
    case CbFlag(c) => Testing(s, c)
    case ScanTest(c, n) => Scanning(s, c, n)
    case ScanClear(c, n) => Scanning(s, c, n) - 1
  }

  lemma RoundGoesOn(s: State, block: bool, reported: bool, left: nat)
    requires s.loop.ScanClear? ==> s.loop.left > 0
    ensures Testing(LoopDo(s, block, reported, left), Sig) == Testing(s, Sig)
    ensures s.loop == Running ==> RoundLeft(LoopDo(s, block, reported, left)) == Testing(s, Sig) + 6
    ensures s.loop != Running ==> RoundLeft(LoopDo(s, block, reported, left)) < RoundLeft(s)
  {
    if s.loop.CbFlag? {
      TestGoesOn(s);
    } else if s.loop.ScanTest? || s.loop.ScanClear? {
      ScanGoesOn(s);
    } else {
      PollGoesOn(s, block, reported, left);
    }
  }

  lemma PollGoesOn(s: State, block: bool, reported: bool, left: nat)
    requires !s.loop.CbFlag? && !s.loop.ScanTest? && !s.loop.ScanClear?
    ensures Testing(LoopDo(s, block, reported, left), Sig) == Testing(s, Sig)
    ensures s.loop == Running ==> RoundLeft(LoopDo(s, block, reported, left)) == Testing(s, Sig) + 6
    ensures s.loop != Running ==> RoundLeft(LoopDo(s, block, reported, left)) < RoundLeft(s)
  {
  }

  lemma TestGoesOn(s: State)
    requires s.loop.CbFlag?
    ensures Testing(LoopDo(s, false, false, 0), Sig) == Testing(s, Sig)
    ensures RoundLeft(LoopDo(s, false, false, 0)) < RoundLeft(s)
  {
    if s.loop.chan == Sig {} else { assert s.loop.chan == Async; }
  }

  lemma ScanGoesOn(s: State)
    requires (s.loop.ScanTest? || s.loop.ScanClear?) && (s.loop.ScanClear? ==> s.loop.left > 0)
    ensures Testing(LoopDo(s, false, false, 0), Sig) == Testing(s, Sig)
    ensures RoundLeft(LoopDo(s, false, false, 0)) < RoundLeft(s)
  {
    if s.loop.chan == Sig {} else { assert s.loop.chan == Async; }
  }

  /** How many steps at most before it sleeps. */
  function StepsLeft(s: State): nat {
    Left(s) * (Testing(s, Sig) + 7) + RoundLeft(s)
  }

  lemma FewerSteps(s: State, a: Action)
    requires Inv(s) && OnTrack(s) && Enabled(s, a) && a.LoopStep? && a.block && !Asleep(s)
    requires s.loop.Polling? ==> (a.reported <==> s.pipe > 0)
    ensures StepsLeft(Do(s, a)) < StepsLeft(s)
  {
    var t := Do(s, a);
    StepComesCloser(s, a);
    RoundGoesOn(s, a.block, a.reported, a.left);
    var c := Testing(s, Sig) + 7;
    if s.loop == Running {
      Times(Left(t) + 1, Left(s), c);
      assert (Left(t) + 1) * c == Left(t) * c + c;
    } else {
      Times(Left(t), Left(s), c);
    }
  }

  lemma Times(a: nat, b: nat, c: nat)
    requires a <= b
    ensures a * c <= b * c
  {
  }

  lemma {:induction false} StepsRunOut(s: State, acts: seq<Action>)
    requires Inv(s) && OnTrack(s) && Alone(s, acts) && Restless(s, acts)
    ensures |acts| <= StepsLeft(s)
    decreases |acts|
  {
    if acts != [] {
      StepKeeps(s, acts[0]);
      StepComesCloser(s, acts[0]);
      FewerSteps(s, acts[0]);
      StepsRunOut(Do(s, acts[0]), acts[1..]);
    }
  }

  /** And it takes no more steps for a round than two for each item and eleven others: no
      callback goes on for ever. */
  lemma SleepsInTime(s: State, acts: seq<Action>)
    requires Inv(s) && s.loop == Running && Alone(s, acts) && Restless(s, acts)
    ensures |acts| <= (s.pipe + 2) * (2 * s.signals + 2 * s.asyncs + 11)
  {
    StepsRunOut(s, acts);
    Times(Left(s), s.pipe + 2, Testing(s, Sig) + 7);
  }

  // ----- no work is done for nothing

  /** The sender is going to write. */
  predicate Writing(p: Sender) { p.AtClearSkip? || p.AtWrite? }

  ghost function Writers(s: State): set<nat> {
    set id | id in s.senders && Writing(s.senders[id])
  }

  /** In this run the loop is not around its poll. */
  ghost predicate Away(s: State, acts: seq<Action>)
    decreases |acts|
  {
    acts == [] || (
      && !s.loop.AtTestSkip? && !s.loop.Polling? && !s.loop.AtClearWanted?
      && Enabled(s, acts[0]) && Away(Do(s, acts[0]), acts[1..]))
  }

  lemma SparesWrite(s: State, a: Action)
    requires Inv(s) && Enabled(s, a) && !s.loop.AtTestSkip? && !s.loop.Polling? && !s.loop.AtClearWanted?
    ensures Writers(Do(s, a)) <= Writers(s)
  {
  }

  /** While it is not, nobody decides to write who had not decided so before. */
  lemma {:induction false} SparesWrites(s: State, acts: seq<Action>, t: State)
    requires Inv(s) && Runs(s, acts, t) && Away(s, acts)
    ensures Writers(t) <= Writers(s)
    decreases |acts|
  {
    if acts != [] {
      StepKeeps(s, acts[0]);
      SparesWrite(s, acts[0]);
      SparesWrites(Do(s, acts[0]), acts[1..], t);
    }
  }

  /** In this run pipecb does not test flag c. */
  ghost predicate Untested(s: State, acts: seq<Action>, c: Chan)
    decreases |acts|
  {
    acts == [] || (
      && Enabled(s, acts[0]) && !(acts[0].LoopStep? && s.loop == CbFlag(c))
      && Untested(Do(s, acts[0]), acts[1..], c))
  }

  /** Nobody sends by c but `ids` and those who have not seen its flag yet. */
  ghost predicate NobodyElse(s: State, ids: set<nat>, c: Chan) {
    forall id {:trigger s.senders[id]} ::
      id in s.senders && id !in ids && s.senders[id].item.chan == c ==> s.senders[id].AtTest?
  }

  lemma NobodyMore(s: State, a: Action, ids: set<nat>, c: Chan)
    requires c in s.flags && NobodyElse(s, ids, c) && Enabled(s, a) && !(a.LoopStep? && s.loop == CbFlag(c))
    ensures c in Do(s, a).flags && NobodyElse(Do(s, a), ids, c)
  {
    var t := Do(s, a);
    forall id | id in t.senders && id !in ids && t.senders[id].item.chan == c ensures t.senders[id].AtTest? {
      assert id in s.senders ==> (s.senders[id].item.chan == c && id !in ids ==> s.senders[id].AtTest?);
    }
  }

  /** As long as a flag is set whoever sends by it now has nothing to do but to look at it: any
      number of sends take one wake-up. */
  lemma {:induction false} Coalesces(s: State, acts: seq<Action>, t: State, ids: set<nat>, c: Chan)
    requires c in s.flags && NobodyElse(s, ids, c) && Runs(s, acts, t) && Untested(s, acts, c)
    ensures c in t.flags && NobodyElse(t, ids, c)
    decreases |acts|
  {
    if acts != [] {
      NobodyMore(s, acts[0], ids, c);
      Coalesces(Do(s, acts[0]), acts[1..], t, ids, c);
    }
  }

  /** What is scanned had its flag set, which is cleared first. */
  lemma ScanIsRaised(s: State, a: Action, i: Item)
    requires Enabled(s, a) && !WillScan(s.loop, i) && WillScan(Do(s, a).loop, i)
    ensures a.LoopStep? && s.loop == CbFlag(i.chan) && i.chan in s.flags && i.chan !in Do(s, a).flags
  {
  }

  /** How often item i was fed between two states. */
  function Feeds(s: State, t: State, i: Item): nat
    requires |s.fed| <= |t.fed|
  {
    multiset(t.fed[|s.fed|..])[i]
  }

  /** How often it may be before its flag is tested again. */
  function Chance(s: State, i: Item): nat {
    if WillScan(s.loop, i) then 1 else 0
  }

  lemma FeedsStep(s: State, a: Action, i: Item)
    requires Inv(s) && Enabled(s, a) && !(a.LoopStep? && s.loop == CbFlag(i.chan))
    ensures s.fed <= Do(s, a).fed && Feeds(s, Do(s, a), i) + Chance(Do(s, a), i) <= Chance(s, i)
  {
    var t := Do(s, a);
    if a.LoopStep? && s.loop.ScanClear? {
      assert t.fed[|s.fed|..] == [Item(s.loop.chan, s.loop.left - 1)];
    } else {
      assert t.fed[|s.fed|..] == [];
    }
  }

  /** One test of a flag feeds each item once at most: only what the scan has still to come to
      is fed before the flag is tested again. */
  lemma {:induction false} FedOnce(s: State, acts: seq<Action>, t: State, i: Item)
    requires Inv(s) && Runs(s, acts, t) && Untested(s, acts, i.chan)
    ensures s.fed <= t.fed && Feeds(s, t, i) + Chance(t, i) <= Chance(s, i)
    decreases |acts|
  {
    if acts == [] {
      assert t.fed[|s.fed|..] == [];
    } else {
      var u := Do(s, acts[0]);
      StepKeeps(s, acts[0]);
      FeedsStep(s, acts[0], i);
      FedOnce(u, acts[1..], t, i);
      assert t.fed[|s.fed|..] == u.fed[|s.fed|..] + t.fed[|u.fed|..];
    }
  }

  // ----- a sender writes once at most

  function AllSends(acts: seq<Action>): nat {
    if acts == [] then 0 else (if acts[0].Send? then 1 else 0) + AllSends(acts[1..])
  }

  lemma OneLess(m: map<nat, Sender>, id: nat)
    requires id in m
    ensures |m - {id}| == |m| - 1
  {
    assert m.Keys == (m - {id}).Keys + {id};
  }

  lemma OneSet(m: map<nat, Sender>, id: nat, at: Sender)
    ensures |m[id := at]| == |m| + if id in m then 0 else 1
  {
    assert m[id := at].Keys == m.Keys + {id};
  }

  lemma SenderWrites(s: State, id: nat)
    requires id in s.senders
    ensures SenderDo(s, id).pipe + |SenderDo(s, id).senders| <= s.pipe + |s.senders|
  {
    OneLess(s.senders, id);
    match s.senders[id]
    case AtTest(i) => OneSet(s.senders, id, AtSetFlag(i));
    case AtSetFlag(i) => OneSet(s.senders, id, AtSetSkip(i));
    case AtSetSkip(i) => OneSet(s.senders, id, AtWanted(i));
    case AtWanted(i) => OneSet(s.senders, id, AtClearSkip(i));
    case AtClearSkip(i) => OneSet(s.senders, id, AtWrite(i));
    case AtWrite(i) =>
  }

  lemma StepWrites(s: State, a: Action)
    requires Enabled(s, a)
    ensures Do(s, a).pipe + |Do(s, a).senders| <= s.pipe + |s.senders| + if a.Send? then 1 else 0
  {
    match a
    case Send(id, item) => OneSet(s.senders, id, AtTest(item));
    case SenderStep(id) => SenderWrites(s, id);
    case LoopStep(_, _, _) =>
  }

  /** There are no more bytes in the pipe than there were and were senders since. */
  lemma {:induction false} WritesAtMostSends(s: State, acts: seq<Action>, t: State)
    requires Runs(s, acts, t)
    ensures t.pipe + |t.senders| <= s.pipe + |s.senders| + AllSends(acts)
    decreases |acts|
  {
    if acts != [] {
      StepWrites(s, acts[0]);
      WritesAtMostSends(Do(s, acts[0]), acts[1..], t);
    }
  }
}
