/** Bufferevent pairs: what one side writes the other side reads. */
module Pair {
  import opened Common
  import opened Bytes
  import opened Evbuffers
  import opened EvbufferQueue
  import opened EvbufferMove
  import opened TokenBucket
  import opened Suspension

  /** How many bytes be_pair_transfer moves, for a reader with this high watermark. */
  function ShareOf(inLen: nat, outLen: nat, high: nat, ignoreWm: bool): (n: nat)
    ensures n <= outLen
    ensures high > 0 && !ignoreWm && n > 0 ==> inLen + n <= high
  {
    if high > 0 && inLen < high then Min(high - inLen, outLen)
    else if high > 0 && !ignoreWm then 0
    else outLen
  }

  /** Without a watermark, or in a flush that finds it reached, nothing is kept back.  Otherwise
      nothing is moved past it, and something is kept back only when it is reached. */
  lemma ShareIsMost(inLen: nat, outLen: nat, high: nat, ignoreWm: bool)
    ensures var n := ShareOf(inLen, outLen, high, ignoreWm);
      if high == 0 || (ignoreWm && inLen >= high) then n == outLen
      else (n == 0 || inLen + n <= high) && (n == outLen || inLen + n >= high)
  {
  }

  // ----- what a run of writes, reads and transfers comes to

  /** What can be done to one direction of a pair. */
  datatype Step = Writes(data: seq<Byte>) | Reads(size: nat) | Transfers(high: nat, ignoreWm: bool)

  /** What the two buffers hold, what was sent since the run began, and what was got. */
  datatype Flow = Flow(input: seq<Byte>, output: seq<Byte>, sent: seq<Byte>, got: seq<Byte>)

  /** A write that no chain can take is refused, and so is one that makes the lengths overflow. */
  predicate Accepts(f: Flow, data: seq<Byte>) {
    |data| <= MAX_CHAIN_MEM && |f.input| + |f.output| + |data| <= SIZE_MAX
  }

  function Played(f: Flow, step: Step): Flow {
    match step
    case Writes(data) => if Accepts(f, data) then f.(output := f.output + data, sent := f.sent + data) else f
    case Reads(size) =>
      var n := Min(size, |f.input|);
      f.(input := f.input[n..], got := f.got + f.input[..n])
    case Transfers(high, ignoreWm) =>
      var n := ShareOf(|f.input|, |f.output|, high, ignoreWm);
      f.(input := f.input + f.output[..n], output := f.output[n..])
  }

  function Play(f: Flow, steps: seq<Step>): Flow
    decreases |steps|
  {
    if steps == [] then f else Play(Played(f, steps[0]), steps[1..])
  }

  /** Whatever is done, what was got and what the buffers hold are together, in order, what
      was there at the start and what was sent. */
  lemma {:induction false} PlayConserves(f: Flow, steps: seq<Step>, start: seq<Byte>)
    requires f.got + f.input + f.output == start + f.sent
    ensures var t := Play(f, steps); t.got + t.input + t.output == start + t.sent
    decreases |steps|
  {
    if steps != [] {
      PlayedConserves(f, steps[0], start);
      PlayConserves(Played(f, steps[0]), steps[1..], start);
    }
  }

  lemma PlayedConserves(f: Flow, step: Step, start: seq<Byte>)
    requires f.got + f.input + f.output == start + f.sent
    ensures var t := Played(f, step); t.got + t.input + t.output == start + t.sent
  {
    match step
    case Writes(data) =>
      assert f.got + f.input + (f.output + data) == f.got + f.input + f.output + data;
      assert start + (f.sent + data) == start + f.sent + data;
    case Reads(size) =>
      var n := Min(size, |f.input|);
      assert f.input == f.input[..n] + f.input[n..];
    case Transfers(high, ignoreWm) =>
      var n := ShareOf(|f.input|, |f.output|, high, ignoreWm);
      assert f.output == f.output[..n] + f.output[n..];
  }

  /** All that a run tries to write. */
  function Tried(steps: seq<Step>): seq<Byte> {
    if steps == [] then [] else (if steps[0].Writes? then steps[0].data else []) + Tried(steps[1..])
  }

  /** Nothing is refused when every write fits a chain and all of them together the lengths. */
  lemma {:induction false} AllIsSent(f: Flow, steps: seq<Step>)
    requires forall k {:trigger steps[k]} :: 0 <= k < |steps| && steps[k].Writes? ==> |steps[k].data| <= MAX_CHAIN_MEM
    requires |f.input| + |f.output| + |Tried(steps)| <= SIZE_MAX
    ensures Play(f, steps).sent == f.sent + Tried(steps)
    decreases |steps|
  {
    if steps != [] {
      var t := Played(f, steps[0]);
      assert forall k {:trigger steps[1..][k]} :: 0 <= k < |steps| - 1 ==> steps[1..][k] == steps[k + 1];
      assert |t.input| + |t.output| + |Tried(steps[1..])| <= SIZE_MAX;
      AllIsSent(t, steps[1..]);
    }
  }

  lemma PlayTwo(f: Flow, a: Step, b: Step, steps: seq<Step>)
    ensures Play(f, [a]) == Played(f, a)
    ensures Play(f, [a, b] + steps) == Play(Played(Played(f, a), b), steps)
  {
    assert ([a, b] + steps)[1..][1..] == steps;
    assert [a][1..] == [];
  }

  /** A transfer divides the same bytes in another way. */
  lemma SameBytes(f: Flow, high: nat, ignoreWm: bool)
    ensures var t := Played(f, Transfers(high, ignoreWm));
      t.input + t.output == f.input + f.output && t.sent == f.sent && t.got == f.got
  {
    var n := ShareOf(|f.input|, |f.output|, high, ignoreWm);
    assert f.output == f.output[..n] + f.output[n..];
  }

  /** A flush, which looks past the watermark only once it is reached, may leave something
      behind; a second one never does. */
  lemma FlushEmpties(f: Flow, high: nat)
    ensures Play(f, [Transfers(high, true)]).output == []
       <==> high == 0 || |f.input| >= high || |f.output| <= high - |f.input|
    ensures Play(f, [Transfers(high, true), Transfers(high, true)]) == f.(input := f.input + f.output, output := [])
  {
    var flush := Transfers(high, true);
    var t := Played(f, flush);
    PlayTwo(f, flush, flush, []);
    assert [flush, flush] + [] == [flush, flush];
    SameBytes(f, high, true);
    FlushesRest(t, high);
  }

  /** A flush with the watermark reached, or off, or nothing to move. */
  lemma FlushesRest(f: Flow, high: nat)
    requires high == 0 || |f.input| >= high || f.output == []
    ensures Played(f, Transfers(high, true)) == f.(input := f.input + f.output, output := [])
  {
    assert f.output[..|f.output|] == f.output;
  }

  /** A reader that is told of new input each time, and takes some of it. */
  function Rounds(high: nat, size: nat, n: nat): seq<Step> {
    if n == 0 then [] else [Transfers(high, false), Reads(size)] + Rounds(high, size, n - 1)
  }

  /** A round of this gets something, if there is anything. */
  lemma RoundGets(f: Flow, high: nat, size: nat)
    requires size > 0
    ensures var t := Played(Played(f, Transfers(high, false)), Reads(size));
      && t.got + (t.input + t.output) == f.got + (f.input + f.output) && t.sent == f.sent
      && (f.input + f.output != [] ==> |t.input + t.output| < |f.input + f.output|)
  {
    var t := Played(f, Transfers(high, false));
    SameBytes(f, high, false);
    var u := Played(t, Reads(size));
    assert t.input == t.input[..Min(size, |t.input|)] + u.input;
    assert t.got + (t.input + t.output) == u.got + (u.input + u.output);
  }

  /** No byte is stuck: after as many rounds as there are bytes the reader has got them all,
      whatever the watermark, if it takes at least one each time. */
  lemma {:induction false} AllArrives(f: Flow, high: nat, size: nat, n: nat)
    requires size > 0 && |f.input + f.output| <= n
    ensures Play(f, Rounds(high, size, n)) == Flow([], [], f.sent, f.got + (f.input + f.output))
    decreases n
  {
    if n > 0 {
      RoundGets(f, high, size);
      PlayTwo(f, Transfers(high, false), Reads(size), Rounds(high, size, n - 1));
      AllArrives(Played(Played(f, Transfers(high, false)), Reads(size)), high, size, n - 1);
    }
  }

  /** Transfers that respect a watermark never take the input past it. */
  lemma {:induction false} NeverPast(f: Flow, steps: seq<Step>, high: nat)
    requires high > 0 && forall k {:trigger steps[k]} :: 0 <= k < |steps| && steps[k].Transfers? ==>
      steps[k] == Transfers(high, false)
    ensures |Play(f, steps).input| <= Max(high, |f.input|)
    decreases |steps|
  {
    if steps != [] {
      assert forall k {:trigger steps[1..][k]} :: 0 <= k < |steps| - 1 ==> steps[1..][k] == steps[k + 1];
      NeverPast(Played(f, steps[0]), steps[1..], high);
    }
  }

  /** One direction of a pair: the output buffer of the side that writes, and the input
      buffer of the side that reads. */
  class Pipe {
    const output: Evbuffer
    const input: Evbuffer
    ghost var written: seq<Byte> // everything that was ever written
    ghost var taken: seq<Byte>   // everything that was ever read

    /** Nothing is lost, added or reordered on the way. */
    ghost predicate Valid()
      reads this, output, output.chains, input, input.chains
    {
      && output.Valid() && input.Valid() && Apart(input, output)
      && written == taken + input.Contents() + output.Contents()
      && input.totalLen + output.totalLen <= SIZE_MAX
      // the output can be moved from in any amount
      && Gapless(output.parts, output.lwi)
    }

    constructor ()
      ensures Valid() && written == [] && taken == [] && fresh(output) && fresh(input)
      ensures output.chains == [] && input.chains == []
    {
      output := new Evbuffer(false);
      input := new Evbuffer(false);
      written, taken := [], [];
    }

    ghost function Share(high: nat, ignoreWm: bool): (n: nat)
      reads output`totalLen, input`totalLen
      ensures n <= output.totalLen
    {
      ShareOf(input.totalLen, output.totalLen, high, ignoreWm)
    }

    /** The first n bytes of the output, or all, move to the end of the input. */
    method Hand(n: nat)
      requires Valid()
      modifies output, output.chains, input, input.chains
      ensures Valid() && Keeps(old(output.chains), old(input.chains))
      ensures input.Contents() == old(input.Contents() + output.Contents()[..Min(n, output.totalLen)])
      ensures output.Contents() == old(output.Contents()[Min(n, output.totalLen)..])
    {
      ghost var k := Min(n, output.totalLen);
      assert output.Contents()[..k] + output.Contents()[k..] == output.Contents();
      GaplessMovable(input, output, n);
      var _ := RemoveBuffer(output, input, n);
    }

    /** The whole output moves to the end of the input. */
    method HandAll()
      requires Valid()
      modifies output, output.chains, input, input.chains
      ensures Valid() && Keeps(old(output.chains), old(input.chains))
      ensures input.Contents() == old(input.Contents() + output.Contents()) && output.Contents() == []
    {
      AddBuffer(input, output);
    }

    /** be_pair_transfer */
    method Transfer(high: nat, ignoreWm: bool)
      requires Valid()
      modifies output, output.chains, input, input.chains
      ensures Valid()
      ensures input.Contents() == old(input.Contents() + output.Contents()[..Share(high, ignoreWm)])
      ensures output.Contents() == old(output.Contents()[Share(high, ignoreWm)..])
      ensures Keeps(old(output.chains), old(input.chains))
    {
      assert output.Contents()[..output.totalLen] == output.Contents();
      if high > 0 {
        var size := input.totalLen;
        if size < high {
          Hand(high - size);
        } else if ignoreWm {
          HandAll();
        }
      } else {
        HandAll();
      }
    }

    /** The chains of the two buffers are those they had, or new ones. */
    twostate predicate Keeps(outs: seq<Chain>, ins: seq<Chain>)
      reads output`chains, input`chains
    {
      && (forall i {:trigger output.chains[i]} :: 0 <= i < |output.chains| ==>
        output.chains[i] in outs || output.chains[i] in ins || fresh(output.chains[i]))
      && (forall i {:trigger input.chains[i]} :: 0 <= i < |input.chains| ==>
        input.chains[i] in outs || input.chains[i] in ins || fresh(input.chains[i]))
    }

    /** bufferevent_write, before the callback on the output buffer. */
    method Write(data: seq<Byte>) returns (ok: bool)
      requires Valid() && input.totalLen + output.totalLen + |data| <= SIZE_MAX
      modifies this, output, output.chains
      ensures Valid() && taken == old(taken) && input.Contents() == old(input.Contents())
      ensures ok <==> |data| <= MAX_CHAIN_MEM
      ensures output.Contents() == old(output.Contents()) + if ok then data else []
      ensures written == old(written) + if ok then data else []
      ensures Keeps(old(output.chains), old(input.chains))
    {
      ghost var cs := input.chains;
      assert forall i {:trigger cs[i]} :: 0 <= i < |cs| ==> cs[i] in cs;
      ok := output.Add(data);
      written := written + if ok then data else [];
    }

    /** bufferevent_read */
    method Read(size: nat) returns (data: seq<Byte>)
      requires Valid()
      modifies this, input, input.chains
      ensures Valid() && written == old(written) && output.Contents() == old(output.Contents())
      ensures data == old(input.Contents()[..Min(size, |input.Contents()|)])
      ensures input.Contents() == old(input.Contents()[Min(size, |input.Contents()|)..])
      ensures taken == old(taken) + data
      ensures Keeps(old(output.chains), old(input.chains))
    {
      ghost var cs := output.chains;
      assert forall i {:trigger cs[i]} :: 0 <= i < |cs| ==> cs[i] in cs;
      data := Remove(input, size);
      taken := taken + data;
    }

    /** What the buffers hold, with what was sent and got so far. */
    ghost function Flowing(sent: seq<Byte>, got: seq<Byte>): Flow
      reads output`parts, input`parts
    {
      Flow(input.Contents(), output.Contents(), sent, got)
    }

    /** One step of a run. */
    method Do(step: Step, sent: seq<Byte>, got: seq<Byte>) returns (sent': seq<Byte>, got': seq<Byte>)
      requires Valid()
      modifies this, output, output.chains, input, input.chains
      ensures Valid() && Keeps(old(output.chains), old(input.chains))
      ensures Flowing(sent', got') == Played(old(Flowing(sent, got)), step)
    {
      sent', got' := sent, got;
      match step
      case Writes(data) =>
        if |data| <= SIZE_MAX - input.totalLen - output.totalLen {
          var ok := Write(data);
          sent' := if ok then sent + data else sent;
        }
      case Reads(size) =>
        var data := Read(size);
        got' := got + data;
      case Transfers(high, ignoreWm) => Transfer(high, ignoreWm);
    }

    /** Steps of a run, of which `sent` and `got` have come about before. */
    method DoAll(steps: seq<Step>, sent: seq<Byte>, got: seq<Byte>) returns (sent': seq<Byte>, got': seq<Byte>)
      requires Valid()
      modifies this, output, output.chains, input, input.chains
      ensures Valid() && Flowing(sent', got') == Play(old(Flowing(sent, got)), steps)
      decreases |steps|
    {
      sent', got' := sent, got;
      if steps != [] {
        sent', got' := Do(steps[0], sent, got);
        sent', got' := DoAll(steps[1..], sent', got');
      }
    }

    /** Any run of writes, reads and transfers: it comes to what Play says of the bytes, and
        so nothing is lost, added or reordered. */
    method Run(steps: seq<Step>) returns (sent: seq<Byte>, got: seq<Byte>)
      requires Valid()
      modifies this, output, output.chains, input, input.chains
      ensures Valid() && Flowing(sent, got) == Play(old(Flowing([], [])), steps)
      ensures got + input.Contents() + output.Contents() == old(input.Contents() + output.Contents()) + sent
    {
      ghost var f := Flowing([], []);
      assert f.got + f.input + f.output == f.input + f.output + f.sent;
      PlayConserves(f, steps, f.input + f.output);
      sent, got := DoAll(steps, [], []);
    }
  }

  /** The two directions share nothing. */
  ghost predicate Separate(p: Pipe, q: Pipe)
    reads p.output`chains, p.input`chains, q.output`chains, q.input`chains
  {
    p != q && Apart(p.output, q.output) && Apart(p.output, q.input) && Apart(p.input, q.output)
      && Apart(p.input, q.input)
  }

  /** A transfer in one direction leaves the other alone. */
  method TransferBeside(p: Pipe, q: Pipe, high: nat, ignoreWm: bool)
    requires p.Valid() && q.Valid() && Separate(p, q)
    modifies p.output, p.output.chains, p.input, p.input.chains
    ensures p.Valid() && q.Valid() && Separate(p, q)
    ensures p.input.Contents() == old(p.input.Contents() + p.output.Contents()[..p.Share(high, ignoreWm)])
    ensures p.output.Contents() == old(p.output.Contents()[p.Share(high, ignoreWm)..])
    ensures unchanged(p, q, q.output, q.input)
  {
    ghost var outs, ins := q.output.chains, q.input.chains;
    assert forall i {:trigger outs[i]} :: 0 <= i < |outs| ==> outs[i] in outs;
    assert forall i {:trigger ins[i]} :: 0 <= i < |ins| ==> ins[i] in ins;
    p.Transfer(high, ignoreWm);
  }

  /** One side of a pair: what is enabled and suspended, and its high watermark. */
  class End {
    const bev: Bev
    var high: nat

    constructor (bev: Bev, high: nat)
      ensures this.bev == bev && this.high == high
    {
      this.bev, this.high := bev, high;
    }
  }

  /** One side writes, and the other reads and is not suspended. */
  predicate Connected(src: End, dst: End)
    reads src.bev`enabled, dst.bev`enabled, dst.bev`suspended
  {
    {Writing} <= src.bev.enabled && {Reading} <= dst.bev.enabled && dst.bev.suspended.reading == {}
  }

  /** be_pair_wants_to_talk */
  predicate WantsToTalk(src: End, dst: End, p: Pipe)
    reads src.bev`enabled, dst.bev`enabled, dst.bev`suspended, p.output`totalLen
  {
    Writing in src.bev.enabled && Reading in dst.bev.enabled && dst.bev.suspended.reading == {} && p.output.totalLen > 0
  }

  /** How much moves from src to dst when they look whether to talk. */
  ghost function Talked(src: End, dst: End, p: Pipe): nat
    reads src.bev`enabled, dst.bev`enabled, dst.bev`suspended, dst`high, p.output`totalLen, p.input`totalLen
  {
    if WantsToTalk(src, dst, p) then p.Share(dst.high, false) else 0
  }

  /** be_pair_transfer, if there is a partner and they want to talk. */
  method Talk(p: Pipe, q: Pipe, src: End, dst: End)
    requires p.Valid() && q.Valid() && Separate(p, q)
    modifies p.output, p.output.chains, p.input, p.input.chains
    ensures p.Valid() && q.Valid() && Separate(p, q)
    ensures p.input.Contents() == old(p.input.Contents() + p.output.Contents()[..Talked(src, dst, p)])
    ensures p.output.Contents() == old(p.output.Contents()[Talked(src, dst, p)..])
    // without a flush nobody gets more than the watermark
    ensures dst.high > 0 ==> p.input.totalLen <= Max(dst.high, old(p.input.totalLen))
    // nothing moves unless one side writes and the other reads, and then until there is no
    // more, or the reader has reached its watermark
    ensures !Connected(src, dst) ==> p.output.Contents() == old(p.output.Contents())
    ensures Connected(src, dst) ==> p.output.totalLen == 0 || 0 < dst.high <= p.input.totalLen
    ensures unchanged(p, q, q.output, q.input)
  {
    ShareIsMost(p.input.totalLen, p.output.totalLen, dst.high, false);
    if WantsToTalk(src, dst, p) {
      TransferBeside(p, q, dst.high, false);
    }
  }

  /** be_pair_outbuf_cb: called when the output of src changed; `linked` says that there is
      still a partner. */
  method OutbufCb(p: Pipe, q: Pipe, src: End, dst: End, added: nat, deleted: nat, linked: bool)
    requires p.Valid() && q.Valid() && Separate(p, q)
    modifies p.output, p.output.chains, p.input, p.input.chains
    ensures p.Valid() && q.Valid() && Separate(p, q)
    ensures p.output.Contents() == old(
      if added > deleted && linked then p.output.Contents()[Talked(src, dst, p)..] else p.output.Contents())
    ensures dst.high > 0 ==> p.input.totalLen <= Max(dst.high, old(p.input.totalLen))
    ensures unchanged(p, q, q.output, q.input)
  {
    if added > deleted && linked {
      Talk(p, q, src, dst);
    }
  }

  /** be_pair_enable, on the side `me`, which reads from `into` and writes to `outof`. */
  method Enable(into: Pipe, outof: Pipe, me: End, other: End, events: set<Way>, linked: bool)
    requires into.Valid() && outof.Valid() && Separate(into, outof)
    modifies into.output, into.output.chains, into.input, into.input.chains
    modifies outof.output, outof.output.chains, outof.input, outof.input.chains
    ensures into.Valid() && outof.Valid() && Separate(into, outof) && unchanged(into, outof)
    ensures into.output.Contents() == old(
      if Reading in events && linked then into.output.Contents()[Talked(other, me, into)..] else into.output.Contents())
    ensures outof.output.Contents() == old(if Writing in events && linked
      then outof.output.Contents()[Talked(me, other, outof)..] else outof.output.Contents())
  {
    TalkIf(into, outof, other, me, Reading in events && linked);
    SeparateSym(into, outof);
    TalkIf(outof, into, me, other, Writing in events && linked);
    SeparateSym(outof, into);
  }

  /** The same in one direction, if it is asked for. */
  method TalkIf(p: Pipe, q: Pipe, src: End, dst: End, asked: bool)
    requires p.Valid() && q.Valid() && Separate(p, q)
    modifies p.output, p.output.chains, p.input, p.input.chains
    ensures p.Valid() && q.Valid() && Separate(p, q)
    ensures p.output.Contents()
      == old(if asked then p.output.Contents()[Talked(src, dst, p)..] else p.output.Contents())
    ensures unchanged(p, q, q.output, q.input)
  {
    if asked {
      Talk(p, q, src, dst);
    }
  }

  lemma SeparateSym(p: Pipe, q: Pipe)
    requires Separate(p, q)
    ensures Separate(q, p)
  {
  }

  /** The flush modes of libevent. */
  datatype Mode = Normal | Flush | Finished

  /** be_pair_flush, with the return value as an Option.  A flush looks past the watermark
      only when it has been reached: below it the reader is just filled up. */
  method FlushPair(into: Pipe, outof: Pipe, me: End, other: End, iotype: set<Way>, mode: Mode, linked: bool)
    returns (ok: bool)
    requires into.Valid() && outof.Valid() && Separate(into, outof)
    modifies into.output, into.output.chains, into.input, into.input.chains
    modifies outof.output, outof.output.chains, outof.input, outof.input.chains
    ensures into.Valid() && outof.Valid() && Separate(into, outof) && unchanged(into, outof)
    ensures ok <==> linked
    ensures into.output.Contents() == old(if linked && mode != Normal && Reading in iotype
      then into.output.Contents()[into.Share(me.high, true)..] else into.output.Contents())
    ensures outof.output.Contents() == old(if linked && mode != Normal && Writing in iotype
      then outof.output.Contents()[outof.Share(other.high, true)..] else outof.output.Contents())
  {
    ok := linked;
    if linked && mode != Normal {
      if Reading in iotype {
        TransferBeside(into, outof, me.high, true);
      }
      if Writing in iotype {
        SeparateSym(into, outof);
        TransferBeside(outof, into, other.high, true);
        SeparateSym(outof, into);
      }
    }
  }
}
