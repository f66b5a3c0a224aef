/** Why a bufferevent's reading or writing is suspended, and how the rate limiter suspends
    and resumes it: alone by its own bucket, and together with the members of its group. */
module Suspension {
  import opened Common
  import opened TokenBucket

  /** BEV_SUSPEND_WM and the others. */
  datatype Reason = WM | BW | BwGroup | Lookup | FiltRead

  const HALF := 0x8000_0000_0000_0000 // limits are 64-bit

  function Other(way: Way): Way { if way == Reading then Writing else Reading }

  /** Updating cannot overflow: the side is not above its maximum, or not by much. */
  predicate Tame(cfg: Cfg, b: Bucket, now: nat, way: Way) {
    var n := Elapsed(now, b.last);
    b.limit.Of(way) <= cfg.maximum.Of(way) || (Counts(n) ==> b.limit.Of(way) + n * cfg.rate.Of(way) < HALF)
  }

  lemma TameRises(cfg: Cfg, b: Bucket, now: nat, way: Way)
    requires Usable(HALF, cfg) && -HALF <= b.limit.Of(way) < HALF && Tame(cfg, b, now, way)
    ensures -HALF <= Updated(HALF, cfg, b, now).limit.Of(way) < HALF
    ensures b.limit.Of(way) > 0 ==> Updated(HALF, cfg, b, now).limit.Of(way) > 0
  {
    var n := Elapsed(now, b.last);
    if Counts(n) {
      assert n * cfg.rate.Of(way) >= 0;
      if b.limit.Of(way) <= cfg.maximum.Of(way) {
        RefillIsIdeal(HALF, b.limit.Of(way), cfg.maximum.Of(way), cfg.rate.Of(way), n);
      } else {
        RefillAboveMaximum(HALF, b.limit.Of(way), cfg.maximum.Of(way), cfg.rate.Of(way), n);
      }
    }
  }

  // ----- what a limited bufferevent lets through

  /** A transfer of as much as is wanted and allowed, or the refill event. */
  datatype Use = Moves(way: Way, wish: nat, now: nat) | Refills(now: nat)

  /** What a use transfers in one direction. */
  function Moved(cfg: Cfg, b: Bucket, use: Use, way: Way): Transfer
    requires Usable(HALF, cfg)
  {
    var most := Updated(HALF, cfg, b, use.now).limit.Of(way);
    Transfer(use.now, if use.Moves? && use.way == way && most > 0 then Min(use.wish, most) else 0)
  }

  /** The bucket after a use. */
  function Used(cfg: Cfg, b: Bucket, use: Use): Bucket
    requires Usable(HALF, cfg)
  {
    if use.Refills? then Updated(HALF, cfg, b, use.now) else After(HALF, cfg, b, use.way, Moved(cfg, b, use, use.way))
  }

  /** What a run of uses transfers in one direction. */
  function Trace(cfg: Cfg, b: Bucket, uses: seq<Use>, way: Way): seq<Transfer>
    requires Usable(HALF, cfg)
    decreases |uses|
  {
    if uses == [] then [] else [Moved(cfg, b, uses[0], way)] + Trace(cfg, Used(cfg, b, uses[0]), uses[1..], way)
  }

  /** For one direction, a use is a transfer of that much. */
  lemma UsedIsAfter(cfg: Cfg, b: Bucket, use: Use, way: Way)
    requires Usable(HALF, cfg)
    ensures var u, v := Used(cfg, b, use), After(HALF, cfg, b, way, Moved(cfg, b, use, way));
      u.limit.Of(way) == v.limit.Of(way) && u.last == v.last
  {
  }

  /** The other direction has no part in what is allowed in this one. */
  lemma {:induction false} OneWay(cfg: Cfg, b: Bucket, c: Bucket, way: Way, ts: seq<Transfer>)
    requires Usable(HALF, cfg) && b.limit.Of(way) == c.limit.Of(way) && b.last == c.last
    ensures Allowed(HALF, cfg, b, way, ts) <==> Allowed(HALF, cfg, c, way, ts)
    decreases |ts|
  {
    if ts != [] {
      OneWay(cfg, After(HALF, cfg, b, way, ts[0]), After(HALF, cfg, c, way, ts[0]), way, ts[1..]);
    }
  }

  /** So a run of uses never transfers more than is allowed. */
  lemma {:induction false} TraceAllowed(cfg: Cfg, b: Bucket, uses: seq<Use>, way: Way)
    requires Usable(HALF, cfg) && forall k {:trigger uses[k]} :: 0 <= k < |uses| ==> uses[k].now < TICKS
    ensures Allowed(HALF, cfg, b, way, Trace(cfg, b, uses, way))
    decreases |uses|
  {
    if uses != [] {
      var rest, u := uses[1..], Used(cfg, b, uses[0]);
      assert forall k {:trigger rest[k]} :: 0 <= k < |rest| ==> rest[k] == uses[k + 1];
      TraceAllowed(cfg, u, rest, way);
      UsedIsAfter(cfg, b, uses[0], way);
      var t, ts := Moved(cfg, b, uses[0], way), Trace(cfg, u, rest, way);
      OneWay(cfg, u, After(HALF, cfg, b, way, t), way, ts);
      assert ([t] + ts)[1..] == ts;
    }
  }

  lemma UsedInRange(cfg: Cfg, b: Bucket, use: Use)
    requires Usable(HALF, cfg) && InRange(HALF, cfg, b) && use.now < TICKS
    ensures InRange(HALF, cfg, Updated(HALF, cfg, b, use.now)) && InRange(HALF, cfg, Used(cfg, b, use))
  {
    UpdatedInRange(HALF, cfg, b, use.now);
  }

  class Bev {
    var enabled: set<Way>
    var suspended: Both<set<Reason>>
    var told: set<Way>          // the directions be_ops was called for
    var armed: set<Way>         // those for which the last call was enable
    var cfg: Option<Cfg>
    var bucket: Bucket
    var refill: bool            // refill_bucket_event is pending
    var maxSingle: Both<nat>

    /** be_ops was last told to enable a direction just if it is enabled and nothing
        suspends it; what be_ops was never told about is not suspended. */
    ghost predicate ArmedOk(way: Way)
      reads `enabled, `suspended, `told, `armed
    {
      if way in told then way in armed <==> way in enabled && suspended.Of(way) == {}
      else suspended.Of(way) == {} && way !in armed
    }

    /** An exhausted side is suspended for it, and the refill event is pending just while
        a side is. */
    ghost predicate RateOk()
      reads `suspended, `cfg, `bucket, `refill
    {
      && (if cfg.None? then BW !in suspended.reading && BW !in suspended.writing
          else Usable(HALF, cfg.value) && SideOk(Reading) && SideOk(Writing))
      && (refill <==> BW in suspended.reading || BW in suspended.writing)
    }

    ghost predicate SideOk(way: Way)
      reads `suspended, `bucket
    {
      -HALF <= bucket.limit.Of(way) < HALF && (bucket.limit.Of(way) <= 0 ==> BW in suspended.Of(way))
    }

    ghost predicate Valid()
      reads this
    {
      ArmedOk(Reading) && ArmedOk(Writing) && RateOk()
    }

    /** The other reasons are those that there were. */
    ghost predicate BwApart(was: Both<set<Reason>>)
      reads `suspended
    {
      suspended.reading - {BW} == was.reading - {BW} && suspended.writing - {BW} == was.writing - {BW}
    }

    constructor (maxSingle: Both<nat>)
      ensures Valid() && enabled == {Writing} && suspended == Both({}, {}) && armed == {} && cfg == None
      ensures this.maxSingle == maxSingle
    {
      enabled, suspended, told, armed := {Writing}, Both({}, {}), {}, {};
      cfg, bucket, refill := None, Bucket(Both(0, 0), 0), false;
      this.maxSingle := maxSingle;
    }

    /** bufferevent_suspend_read_ and bufferevent_suspend_write_ */
    method Suspend(way: Way, what: Reason)
      requires ArmedOk(Reading) && ArmedOk(Writing)
      modifies `suspended, `told, `armed
      ensures ArmedOk(Reading) && ArmedOk(Writing)
      ensures suspended == old(suspended.Set(way, suspended.Of(way) + {what})) && way !in armed
    {
      if suspended.Of(way) == {} {
        told, armed := told + {way}, armed - {way};
      }
      suspended := suspended.Set(way, suspended.Of(way) + {what});
    }

    /** bufferevent_unsuspend_read_ and bufferevent_unsuspend_write_ */
    method Unsuspend(way: Way, what: Reason)
      requires ArmedOk(Reading) && ArmedOk(Writing)
      modifies `suspended, `told, `armed
      ensures ArmedOk(Reading) && ArmedOk(Writing)
      ensures suspended == old(suspended.Set(way, suspended.Of(way) - {what}))
      ensures suspended.Of(way) == {} && way in enabled ==> way in armed
    {
      suspended := suspended.Set(way, suspended.Of(way) - {what});
      if suspended.Of(way) == {} && way in enabled {
        told, armed := told + {way}, armed + {way};
      }
    }

    /** Suspends the sides that are suspended in the group it joins. */
    method SuspendSides(sides: Both<bool>)
      requires Valid()
      modifies `suspended, `told, `armed
      ensures Valid()
      ensures suspended.reading == old(suspended).reading + if sides.reading then {BwGroup} else {}
      ensures suspended.writing == old(suspended).writing + if sides.writing then {BwGroup} else {}
    {
      if sides.reading { Suspend(Reading, BwGroup); }
      if sides.writing { Suspend(Writing, BwGroup); }
    }

    /** bufferevent_enable */
    method Enable(event: set<Way>)
      requires Valid()
      modifies `enabled, `told, `armed
      ensures Valid() && enabled == old(enabled) + event
      ensures forall way :: way in event && suspended.Of(way) == {} ==> way in armed
    {
      var impl := event;
      if suspended.reading != {} { impl := impl - {Reading}; }
      if suspended.writing != {} { impl := impl - {Writing}; }
      enabled := enabled + event;
      told, armed := told + impl, armed + impl;
    }

    /** bufferevent_disable */
    method Disable(event: set<Way>)
      requires Valid()
      modifies `enabled, `told, `armed
      ensures Valid() && enabled == old(enabled) - event && armed == old(armed) - event
    {
      enabled := enabled - event;
      told, armed := told + event, armed - event;
    }

    /** bufferevent_decrement_read_buckets_ and its partner, for the bufferevent's own
        bucket; `bytes` may be negative, to give tokens back. */
    method Decrement(way: Way, bytes: int)
      requires Valid() && -HALF <= bucket.limit.Of(way) - bytes < HALF
      modifies `suspended, `told, `armed, `bucket, `refill
      ensures Valid()
      ensures bucket == if cfg.None? then old(bucket)
        else old(bucket.(limit := bucket.limit.Set(way, bucket.limit.Of(way) - bytes)))
      ensures cfg.Some? ==> (BW in suspended.Of(way) <==> bucket.limit.Of(way) <= 0)
      ensures BwApart(old(suspended)) && suspended.Of(Other(way)) == old(suspended).Of(Other(way))
      ensures cfg.None? ==> suspended == old(suspended) && refill == old(refill)
    {
      if cfg.Some? {
        bucket := bucket.(limit := bucket.limit.Set(way, bucket.limit.Of(way) - bytes));
        if bucket.limit.Of(way) <= 0 {
          Suspend(way, BW);
          refill := true;
        } else if BW in suspended.Of(way) {
          if BW !in suspended.Of(Other(way)) {
            refill := false;
          }
          Unsuspend(way, BW);
        }
      }
    }

    /** bufferevent_update_buckets */
    method Update(now: nat)
      requires Valid() && cfg.Some? && Tame(cfg.value, bucket, now, Reading) && Tame(cfg.value, bucket, now, Writing)
      modifies `bucket
      ensures Valid() && bucket == Updated(HALF, cfg.value, old(bucket), now)
    {
      TameRises(cfg.value, bucket, now, Reading);
      TameRises(cfg.value, bucket, now, Writing);
      bucket := Updated(HALF, cfg.value, bucket, now);
    }

    /** bufferevent_get_rlim_max_ before the group has its say. */
    method OwnMax(way: Way, now: nat) returns (most: int)
      requires Valid() && (cfg.Some? ==> Tame(cfg.value, bucket, now, Reading) && Tame(cfg.value, bucket, now, Writing))
      modifies `bucket
      ensures Valid()
      ensures bucket == if cfg.Some? then Updated(HALF, cfg.value, old(bucket), now) else old(bucket)
      ensures most == if cfg.Some? then bucket.limit.Of(way) else maxSingle.Of(way)
    {
      if cfg.Some? {
        Update(now);
      }
      most := if cfg.Some? then bucket.limit.Of(way) else maxSingle.Of(way);
    }

    /** One side of bev_refill_callback_. */
    method Resume(way: Way) returns (again: bool)
      requires ArmedOk(Reading) && ArmedOk(Writing)
      modifies `suspended, `told, `armed
      ensures ArmedOk(Reading) && ArmedOk(Writing)
      ensures again <==> old(BW in suspended.Of(way)) && bucket.limit.Of(way) <= 0
      ensures suspended
        == old(suspended).Set(way, if again then old(suspended).Of(way) else old(suspended).Of(way) - {BW})
    {
      again := false;
      assert BW !in suspended.Of(way) ==> suspended.Of(way) - {BW} == suspended.Of(way);
      if BW in suspended.Of(way) {
        if bucket.limit.Of(way) > 0 {
          Unsuspend(way, BW);
        } else {
          again := true;
        }
      }
    }

    /** bev_refill_callback_: the refill event fires, and is pending no more unless it is
        added again. */
    method RefillCallback(now: nat)
      requires Valid() && (cfg.Some? ==> Tame(cfg.value, bucket, now, Reading) && Tame(cfg.value, bucket, now, Writing))
      modifies `suspended, `told, `armed, `bucket, `refill
      ensures Valid()
      ensures cfg.Some? ==> bucket == Updated(HALF, cfg.value, old(bucket), now)
      ensures cfg.Some? ==> (BW in suspended.reading <==> bucket.limit.reading <= 0)
      ensures cfg.Some? ==> (BW in suspended.writing <==> bucket.limit.writing <= 0)
      ensures BwApart(old(suspended))
      ensures cfg.None? ==> suspended == old(suspended) && bucket == old(bucket) && refill == old(refill)
    {
      if cfg.Some? {
        Update(now);
        var r := Resume(Reading);
        var w := Resume(Writing);
        refill := r || w;
      }
    }

    /** One use of a limited bufferevent: asked how much it may transfer, it transfers so much
        at most, and is charged for it; or its refill event fires. */
    method Serve(use: Use) returns (n: nat)
      requires Valid() && cfg.Some? && InRange(HALF, cfg.value, bucket) && use.now < TICKS
      modifies `suspended, `told, `armed, `bucket, `refill
      ensures Valid() && InRange(HALF, cfg.value, bucket) && bucket == Used(cfg.value, old(bucket), use)
      ensures n == if use.Moves? then Moved(cfg.value, old(bucket), use, use.way).bytes else 0
    {
      n := 0;
      UsedInRange(cfg.value, bucket, use);
      if use.Refills? {
        RefillCallback(use.now);
      } else {
        var most := OwnMax(use.way, use.now);
        if most > 0 { n := Min(use.wish, most); }
        Decrement(use.way, n);
      }
    }

    /** Any run of uses: what goes one way is what Trace says, and so within a window of d
        ticks no more than the maximum and d times the rate. */
    method ServeAll(uses: seq<Use>, way: Way) returns (total: nat)
      requires Valid() && cfg.Some? && InRange(HALF, cfg.value, bucket)
      requires forall k {:trigger uses[k]} :: 0 <= k < |uses| ==> uses[k].now < TICKS
      modifies `suspended, `told, `armed, `bucket, `refill
      ensures Valid() && InRange(HALF, cfg.value, bucket)
      ensures total == Bytes(Trace(cfg.value, old(bucket), uses, way))
      ensures total <= cfg.value.maximum.Of(way)
        + cfg.value.rate.Of(way) * Ticks(old(bucket).last, Trace(cfg.value, old(bucket), uses, way))
      decreases |uses|
    {
      TraceAllowed(cfg.value, bucket, uses, way);
      WindowBound(HALF, cfg.value, bucket, way, Trace(cfg.value, bucket, uses, way));
      total := 0;
      if uses != [] {
        total := ServeFirst(uses, way);
      }
    }

    /** The first of a run, and the others. */
    method ServeFirst(uses: seq<Use>, way: Way) returns (total: nat)
      requires Valid() && cfg.Some? && InRange(HALF, cfg.value, bucket) && uses != []
      requires forall k {:trigger uses[k]} :: 0 <= k < |uses| ==> uses[k].now < TICKS
      modifies `suspended, `told, `armed, `bucket, `refill
      ensures Valid() && InRange(HALF, cfg.value, bucket)
      ensures total == Bytes(Trace(cfg.value, old(bucket), uses, way))
      decreases |uses|, 0
    {
      ghost var c, b := cfg.value, bucket;
      ghost var ts := Trace(c, Used(c, b, uses[0]), uses[1..], way);
      assert Trace(c, b, uses, way)[1..] == ts;
      assert forall k {:trigger uses[1..][k]} :: 0 <= k < |uses| - 1 ==> uses[1..][k] == uses[k + 1];
      var n := Serve(uses[0]);
      var rest := ServeAll(uses[1..], way);
      total := if uses[0].Moves? && uses[0].way == way then n + rest else rest;
    }

    /** bufferevent_set_rate_limit with a configuration; `same` says that it is the one in
        use already. */
    method SetRateLimit(c: Cfg, same: bool, now: nat)
      requires Valid() && Usable(HALF, c) && (same ==> cfg == Some(c))
      modifies `suspended, `told, `armed, `cfg, `bucket, `refill
      ensures Valid() && cfg == Some(c)
      ensures same ==> bucket == old(bucket) && suspended == old(suspended) && refill == old(refill)
      ensures !same ==> bucket == Initialized(c, old(bucket), now, old(cfg.Some?))
      // who was not limited has the tokens of one tick, and is not suspended for them
      ensures old(cfg.None?) ==> bucket == Bucket(Both(c.rate.reading, c.rate.writing), now)
      ensures old(cfg.None?) ==> suspended == Both(old(suspended).reading - {BW}, old(suspended).writing - {BW})
      ensures BwApart(old(suspended))
      ensures !same ==> (BW in suspended.reading <==> bucket.limit.reading <= 0)
      ensures !same ==> (BW in suspended.writing <==> bucket.limit.writing <= 0)
    {
      if !same {
        bucket := Initialized(c, bucket, now, cfg.Some?);
        cfg := Some(c);
        refill := false;
        var r := Judge(Reading);
        var w := Judge(Writing);
        if r || w { refill := true; }
      }
    }

    /** One side of bufferevent_set_rate_limit. */
    method Judge(way: Way) returns (exhausted: bool)
      requires ArmedOk(Reading) && ArmedOk(Writing)
      modifies `suspended, `told, `armed
      ensures ArmedOk(Reading) && ArmedOk(Writing) && (exhausted <==> bucket.limit.Of(way) <= 0)
      ensures suspended == old(suspended).Set(way,
        if exhausted then old(suspended).Of(way) + {BW} else old(suspended).Of(way) - {BW})
    {
      exhausted := bucket.limit.Of(way) <= 0;
      if exhausted {
        Suspend(way, BW);
      } else {
        Unsuspend(way, BW);
      }
    }

    /** bufferevent_set_rate_limit without one. */
    method ClearRateLimit()
      requires Valid()
      modifies `suspended, `told, `armed, `cfg, `refill
      ensures Valid() && cfg == None
      ensures suspended == Both(old(suspended).reading - {BW}, old(suspended).writing - {BW})
    {
      cfg := None;
      Unsuspend(Reading, BW);
      Unsuspend(Writing, BW);
      refill := false;
    }
  }

  /** Reinitialising gives no tokens, and leaves no more than the new maximum. */
  lemma InitializedClips(c: Cfg, b: Bucket, now: nat, way: Way)
    ensures var i := Initialized(c, b, now, true);
      i.last == b.last && i.limit.Of(way) <= b.limit.Of(way) && i.limit.Of(way) <= c.maximum.Of(way)
      && (i.limit.Of(way) == b.limit.Of(way) || i.limit.Of(way) == c.maximum.Of(way))
  {
  }

  /** ev_token_bucket_init_ */
  function Initialized(c: Cfg, b: Bucket, now: nat, reinit: bool): Bucket {
    if reinit then
      b.(limit := Both(if b.limit.reading > c.maximum.reading then c.maximum.reading else b.limit.reading,
                       if b.limit.writing > c.maximum.writing then c.maximum.writing else b.limit.writing))
    else Bucket(Both(c.rate.reading, c.rate.writing), now)
  }

  /** C's division, which rounds towards zero. */
  function Quotient(a: int, n: nat): int
    requires n > 0
  {
    if a >= 0 then a / n else -(-a / n)
  }

  /** The minimum may be had by each of the n members of a group, and what leaves as much for
      the others. */
  predicate Granted(most: int, limit: int, n: nat, minShare: nat) {
    most <= minShare || most * n <= limit
  }

  /** What is granted, less is granted too. */
  lemma LessIsGranted(less: int, most: int, limit: int, n: nat, minShare: nat)
    requires less <= most && Granted(most, limit, n, minShare)
    ensures Granted(less, limit, n, minShare)
  {
    if less > minShare { assert less * n <= most * n; }
  }

  class Group {
    var members: seq<Bev>
    var cfg: Cfg
    var bucket: Bucket
    var suspended: Both<bool>
    var pendingUnsuspend: Both<bool> // some member may still be suspended for the group
    var minShare: nat

    /** The members are sound, no one is in the list twice, and the limits are in range. */
    ghost predicate Sound()
      reads this, members
    {
      && (forall i {:trigger members[i]} :: 0 <= i < |members| ==> members[i].Valid())
      && (forall i, j {:trigger members[i], members[j]} :: 0 <= i < j < |members| ==> members[i] != members[j])
    }

    /** No member is stuck: one that is suspended for the group will be resumed, because
        the group is suspended, or knows that someone is left over. */
    ghost predicate NoneStuck(way: Way)
      reads this, members
    {
      forall i {:trigger members[i]} :: 0 <= i < |members| && BwGroup in members[i].suspended.Of(way) ==>
        suspended.Of(way) || pendingUnsuspend.Of(way)
    }

    /** An exhausted group is suspended. */
    ghost predicate GroupOk(way: Way)
      reads `bucket, `suspended, `cfg, `pendingUnsuspend
    {
      && Usable(HALF, cfg) && -HALF <= bucket.limit.Of(way) < HALF
      && (bucket.limit.Of(way) <= 0 ==> suspended.Of(way))
      && (suspended.Of(way) ==> !pendingUnsuspend.Of(way))
    }

    ghost predicate Valid()
      reads this, members
    {
      && Sound() && NoneStuck(Reading) && NoneStuck(Writing) && GroupOk(Reading) && GroupOk(Writing)
    }

    /** Every member that can be locked is suspended for the group, or no such member is. */
    ghost predicate Suspends(way: Way, unlocked: set<Bev>)
      reads `members, members`suspended
    {
      forall i {:trigger members[i]} :: 0 <= i < |members| && members[i] in unlocked ==>
        BwGroup in members[i].suspended.Of(way)
    }

    ghost predicate Resumes(way: Way, unlocked: set<Bev>)
      reads `members, members`suspended
    {
      forall i {:trigger members[i]} :: 0 <= i < |members| && members[i] in unlocked ==>
        BwGroup !in members[i].suspended.Of(way)
    }

    /** bufferevent_rate_limit_group_new */
    constructor (cfg: Cfg, now: nat, minShare: nat)
      requires Usable(HALF, cfg)
      ensures Valid() && members == [] && suspended == Both(false, false)
        && bucket == Bucket(Both(cfg.rate.reading, cfg.rate.writing), now)
      ensures this.cfg == cfg && this.minShare == minShare && pendingUnsuspend == Both(false, false)
    {
      members, this.cfg, bucket := [], cfg, Initialized(cfg, Bucket(Both(0, 0), 0), now, false);
      suspended, pendingUnsuspend, this.minShare := Both(false, false), Both(false, false), minShare;
    }

    /** The loop of bev_group_suspend_reading_: a member that cannot be locked is left as
        it is. */
    method SuspendMembers(way: Way, unlocked: set<Bev>)
      requires Sound()
      modifies members`suspended, members`told, members`armed
      ensures Sound()
      ensures forall i {:trigger members[i]} :: 0 <= i < |members| ==>
        members[i].suspended == if members[i] !in unlocked then old(members[i].suspended)
          else old(members[i].suspended).Set(way, old(members[i].suspended).Of(way) + {BwGroup})
    {
      for k := 0 to |members|
        invariant Sound()
        invariant forall i {:trigger members[i]} :: 0 <= i < |members| ==>
          members[i].suspended == if i >= k || members[i] !in unlocked then old(members[i].suspended)
            else old(members[i].suspended).Set(way, old(members[i].suspended).Of(way) + {BwGroup})
      {
        if members[k] in unlocked {
          members[k].Suspend(way, BwGroup);
        }
      }
    }

    /** bev_group_suspend_reading_ and its partner. */
    method SuspendAll(way: Way, unlocked: set<Bev>)
      requires Sound() && NoneStuck(Reading) && NoneStuck(Writing)
      modifies `suspended, `pendingUnsuspend, members`suspended, members`told, members`armed
      ensures Sound() && NoneStuck(Reading) && NoneStuck(Writing)
      ensures suspended == old(suspended).Set(way, true) && pendingUnsuspend == old(pendingUnsuspend).Set(way, false)
      ensures Suspends(way, unlocked)
      ensures forall i {:trigger members[i]} :: 0 <= i < |members| ==>
        members[i].suspended.Of(Other(way)) == old(members[i].suspended).Of(Other(way))
    {
      SuspendMembers(way, unlocked);
      suspended, pendingUnsuspend := suspended.Set(way, true), pendingUnsuspend.Set(way, false);
    }

    /** Resumes one member if it can be locked, and says whether it could not. */
    method UnsuspendOne(way: Way, ghost k: nat, m: Bev, unlocked: set<Bev>) returns (again: bool)
      requires Sound() && k < |members| && m == members[k]
      modifies m`suspended, m`told, m`armed
      ensures Sound() && (again <==> m !in unlocked)
      ensures m.suspended == if again then old(m.suspended)
        else old(m.suspended).Set(way, old(m.suspended).Of(way) - {BwGroup})
    {
      again := m !in unlocked;
      if !again {
        m.Unsuspend(way, BwGroup);
      }
    }

    /** The loop of bev_group_unsuspend_reading_: from the member `first`, picked at
        random, to the end of the list, and then from its beginning. */
    method UnsuspendMembers(way: Way, unlocked: set<Bev>, first: nat) returns (again: bool)
      requires Sound() && (if members == [] then first == 0 else first < |members|)
      modifies members`suspended, members`told, members`armed
      ensures Sound()
      ensures again <==> exists i {:trigger members[i]} :: 0 <= i < |members| && members[i] !in unlocked
      ensures forall i {:trigger members[i]} :: 0 <= i < |members| ==>
        members[i].suspended == if members[i] !in unlocked then old(members[i].suspended)
          else old(members[i].suspended).Set(way, old(members[i].suspended).Of(way) - {BwGroup})
    {
      again := false;
      for n := 0 to |members|
        invariant Sound()
        invariant again <==> exists i {:trigger members[i]} ::
          0 <= i < |members| && Visited(first, n, |members|, i) && members[i] !in unlocked
        invariant forall i {:trigger members[i]} :: 0 <= i < |members| ==>
          members[i].suspended == if !Visited(first, n, |members|, i) || members[i] !in unlocked
            then old(members[i].suspended)
            else old(members[i].suspended).Set(way, old(members[i].suspended).Of(way) - {BwGroup})
      {
        var k := if first + n < |members| then first + n else first + n - |members|;
        var missed := UnsuspendOne(way, k, members[k], unlocked);
        VisitedNext(first, n, |members|);
        again := again || missed;
      }
    }

    /** bev_group_unsuspend_reading_ and its partner. */
    method UnsuspendAll(way: Way, unlocked: set<Bev>, first: nat)
      requires Sound() && NoneStuck(Reading) && NoneStuck(Writing)
      requires if members == [] then first == 0 else first < |members|
      modifies `suspended, `pendingUnsuspend, members`suspended, members`told, members`armed
      ensures Sound() && NoneStuck(Reading) && NoneStuck(Writing)
      ensures suspended == old(suspended).Set(way, false)
      ensures pendingUnsuspend == old(pendingUnsuspend).Set(way, pendingUnsuspend.Of(way))
      ensures pendingUnsuspend.Of(way) <==> exists i {:trigger members[i]} ::
        0 <= i < |members| && members[i] !in unlocked
      ensures Resumes(way, unlocked)
      ensures forall i {:trigger members[i]} :: 0 <= i < |members| ==>
        members[i].suspended.Of(Other(way)) == old(members[i].suspended).Of(Other(way))
    {
      var again := UnsuspendMembers(way, unlocked, first);
      suspended, pendingUnsuspend := suspended.Set(way, false), pendingUnsuspend.Set(way, again);
    }

    /** The group's part of bufferevent_decrement_read_buckets_ and its partner. */
    method Decrement(way: Way, bytes: int, unlocked: set<Bev>, first: nat)
      requires Valid() && -HALF <= bucket.limit.Of(way) - bytes < HALF
      requires if members == [] then first == 0 else first < |members|
      modifies `bucket, `suspended, `pendingUnsuspend, members`suspended, members`told, members`armed
      ensures Valid() && bucket == old(bucket.(limit := bucket.limit.Set(way, bucket.limit.Of(way) - bytes)))
      ensures suspended == old(suspended).Set(way, bucket.limit.Of(way) <= 0)
      ensures if suspended.Of(way) then Suspends(way, unlocked)
        else old(suspended.Of(way)) ==> Resumes(way, unlocked)
    {
      bucket := bucket.(limit := bucket.limit.Set(way, bucket.limit.Of(way) - bytes));
      if bucket.limit.Of(way) <= 0 {
        SuspendAll(way, unlocked);
      } else if suspended.Of(way) {
        UnsuspendAll(way, unlocked, first);
      }
    }

    /** One side of bev_group_refill_callback_. */
    method ResumeGroup(way: Way, unlocked: set<Bev>, first: nat)
      requires Sound() && NoneStuck(Reading) && NoneStuck(Writing)
      requires if members == [] then first == 0 else first < |members|
      modifies `suspended, `pendingUnsuspend, members`suspended, members`told, members`armed
      ensures Sound() && NoneStuck(Reading) && NoneStuck(Writing)
      ensures suspended.Of(way) <==>
        old(suspended.Of(way)) && !old(pendingUnsuspend.Of(way)) && bucket.limit.Of(way) < minShare
      ensures suspended == old(suspended).Set(way, suspended.Of(way))
      ensures pendingUnsuspend == old(pendingUnsuspend).Set(way, pendingUnsuspend.Of(way))
      ensures suspended.Of(way) ==> pendingUnsuspend.Of(way) == old(pendingUnsuspend.Of(way))
      // everybody who can be locked is resumed, once the group is
      ensures !suspended.Of(way) ==> Resumes(way, unlocked)
      ensures forall i {:trigger members[i]} :: 0 <= i < |members| ==>
        members[i].suspended.Of(Other(way)) == old(members[i].suspended).Of(Other(way))
    {
      if pendingUnsuspend.Of(way) || (suspended.Of(way) && bucket.limit.Of(way) >= minShare) {
        UnsuspendAll(way, unlocked, first);
      }
    }

    /** The bucket brought up to date: an exhausted side is suspended, as it was before. */
    method UpdateBucket(now: nat)
      requires Valid() && Tame(cfg, bucket, now, Reading) && Tame(cfg, bucket, now, Writing)
      modifies `bucket
      ensures Valid() && bucket == Updated(HALF, cfg, old(bucket), now)
    {
      TameRises(cfg, bucket, now, Reading);
      TameRises(cfg, bucket, now, Writing);
      bucket := Updated(HALF, cfg, bucket, now);
    }

    /** bev_group_refill_callback_.  The group is left as it should be unless its minimum
        share is zero and a side has no token and no debt: that side is resumed although
        it is exhausted. */
    method RefillCallback(now: nat, unlocked: set<Bev>, first: nat)
      requires Valid() && Tame(cfg, bucket, now, Reading) && Tame(cfg, bucket, now, Writing)
      requires if members == [] then first == 0 else first < |members|
      modifies `bucket, `suspended, `pendingUnsuspend, members`suspended, members`told, members`armed
      ensures Sound() && NoneStuck(Reading) && NoneStuck(Writing) && bucket == Updated(HALF, cfg, old(bucket), now)
      ensures Valid() <==> (
        || minShare > 0
        || (Updated(HALF, cfg, old(bucket), now).limit.reading != 0
          && Updated(HALF, cfg, old(bucket), now).limit.writing != 0))
      ensures forall way :: suspended.Of(way) <==>
        old(suspended.Of(way)) && !old(pendingUnsuspend.Of(way)) && bucket.limit.Of(way) < minShare
      ensures !suspended.reading ==> Resumes(Reading, unlocked)
      ensures !suspended.writing ==> Resumes(Writing, unlocked)
    {
      UpdateBucket(now);
      ResumeGroup(Reading, unlocked, first);
      ResumeGroup(Writing, unlocked, first);
    }

    /** A member's share, when it asks; one that was missed when the group was suspended finds
        out here and gets nothing. */
    method TakeShare(m: Bev, way: Way) returns (share: int)
      requires Valid() && m in members && members != []
      modifies m`suspended, m`told, m`armed
      ensures Valid() && m.bucket == old(m.bucket)
      ensures if suspended.Of(way) then share == 0 && BwGroup in m.suspended.Of(way)
        else share == Share(way) && m.suspended == old(m.suspended)
    {
      if suspended.Of(way) {
        m.Suspend(way, BwGroup);
        share := 0;
      } else {
        share := Share(way);
      }
    }

    /** bufferevent_get_rlim_max_ for a member. */
    method GetMax(m: Bev, way: Way, now: nat) returns (most: int)
      requires Valid() && m in members && members != []
      requires m.cfg.Some? ==> Tame(m.cfg.value, m.bucket, now, Reading) && Tame(m.cfg.value, m.bucket, now, Writing)
      modifies m`bucket, m`suspended, m`told, m`armed
      ensures Valid()
      ensures m.bucket == if m.cfg.Some? then Updated(HALF, m.cfg.value, old(m.bucket), now) else old(m.bucket)
      // a member that was missed when the group was suspended finds out here
      ensures suspended.Of(way) ==> most == 0 && BwGroup in m.suspended.Of(way)
      ensures !suspended.Of(way) ==> m.suspended == old(m.suspended)
      // otherwise: the largest amount that neither its own limit nor its share forbids
      ensures !suspended.Of(way) ==>
        var own := if m.cfg.Some? then m.bucket.limit.Of(way) else m.maxSingle.Of(way);
        if own <= 0 then most == 0 else (
          && most <= own && Granted(most, bucket.limit.Of(way), |members|, minShare)
          && (most == own || !Granted(most + 1, bucket.limit.Of(way), |members|, minShare)))
    {
      most := m.OwnMax(way, now);
      var share := TakeShare(m, way);
      if most > share { most := share; }
      if most < 0 { most := 0; }
      if !suspended.Of(way) {
        LessIsGranted(most, Share(way), bucket.limit.Of(way), |members|, minShare);
      }
    }

    /** A member's share of what the group has, and at least the minimum. */
    function Share(way: Way): (share: int)
      requires members != []
      reads `members, `bucket, `minShare
      ensures share >= 0
      ensures Granted(share, bucket.limit.Of(way), |members|, minShare)
      ensures !Granted(share + 1, bucket.limit.Of(way), |members|, minShare)
    {
      var share := Quotient(bucket.limit.Of(way), |members|);
      if share < minShare then minShare else share
    }

    /** bufferevent_add_to_rate_limit_group, for a bufferevent that is in no group. */
    method AddMember(m: Bev)
      requires Valid() && m.Valid() && m !in members
      requires BwGroup !in m.suspended.reading && BwGroup !in m.suspended.writing
      modifies `members, m`suspended, m`told, m`armed
      ensures Valid() && members == [m] + old(members)
      ensures (suspended.reading <==> BwGroup in m.suspended.reading)
        && (suspended.writing <==> BwGroup in m.suspended.writing)
      ensures m.suspended.reading - {BwGroup} == old(m.suspended).reading
      ensures m.suspended.writing - {BwGroup} == old(m.suspended).writing
    {
      members := [m] + members;
      m.SuspendSides(suspended);
    }

    /** bufferevent_remove_from_rate_limit_group */
    method RemoveMember(m: Bev, k: nat)
      requires Valid() && k < |members| && members[k] == m
      modifies `members, m`suspended, m`told, m`armed
      ensures Valid() && members == old(members)[..k] + old(members)[k + 1..] && m.Valid()
      ensures m.suspended
        == Both(old(m.suspended).reading - {BwGroup}, old(m.suspended).writing - {BwGroup})
    {
      members := members[..k] + members[k + 1..];
      m.Unsuspend(Reading, BwGroup);
      m.Unsuspend(Writing, BwGroup);
    }
  }

  /** A group for which it fails: one token a tick, no minimum share, and two tokens taken
      out of one.  After the next tick it has no token, and is resumed all the same. */
  method ResumedTooEarly() returns (g: Group)
    ensures g.bucket.limit.reading == 0 && !g.suspended.reading && !g.Valid()
  {
    g := new Group(Cfg(Both(1, 1), Both(1, 1)), 0, 0);
    g.Decrement(Reading, 2, {}, 0);
    OneTick(g.cfg, g.bucket);
    g.RefillCallback(1, {}, 0);
  }

  lemma OneTick(cfg: Cfg, b: Bucket)
    requires cfg == Cfg(Both(1, 1), Both(1, 1)) && b == Bucket(Both(-1, 1), 0)
    ensures Usable(HALF, cfg) && Updated(HALF, cfg, b, 1).limit == Both(0, 1)
    ensures Tame(cfg, b, 1, Reading) && Tame(cfg, b, 1, Writing)
  {
    UpdatedIs(HALF, cfg, b, 1, Reading);
    UpdatedIs(HALF, cfg, b, 1, Writing);
  }

  lemma VisitedNext(first: nat, n: nat, size: nat)
    requires first < size && n < size
    ensures forall i {:trigger Visited(first, n + 1, size, i)} :: 0 <= i < size ==>
      (Visited(first, n + 1, size, i) <==>
        Visited(first, n, size, i) || i == if first + n < size then first + n else first + n - size)
  {
  }

  /** Whether the walk from `first` around the list has come to i in its first n rounds. */
  predicate Visited(first: nat, n: nat, size: nat, i: int) {
    first <= i < first + n || i < first + n - size
  }
}
