/** Taking bytes from the front of a buffer, and putting bytes there. */
module EvbufferQueue {
  import opened Common
  import opened Bytes
  import opened Evbuffers

  const SSIZE_MAX: nat := 0x7fff_ffff_ffff_ffff

  /** Take the first `k` chains out of the list; lastWithDatap already names its
      chain from the list that stays. */
  method UnlinkFront(buf: Evbuffer, c: Chain?, ghost k: nat)
    requires buf.Linked() && k <= |buf.chains| && c == buf.At(k)
    modifies buf`first, buf`chains, buf`parts
    ensures buf.Linked()
    ensures buf.chains == old(buf.chains)[k..] && buf.parts == old(buf.parts)[k..]
    ensures k < old(|buf.chains|) ==> buf.At(|buf.chains| - 1) == old(buf.At(|buf.chains| - 1))
    ensures forall i :: 0 <= i < |buf.chains| ==> buf.chains[i] in old(buf.chains)
  {
    buf.first := c;
    buf.chains, buf.parts := buf.chains[k..], buf.parts[k..];
  }

  /** Take `n` bytes off the front of chain i. */
  method ShaveChain(buf: Evbuffer, c: Chain, ghost i: nat, n: nat)
    requires buf.Linked() && i < |buf.chains| && c == buf.chains[i] && n <= |buf.parts[i]|
    modifies buf`parts, c`misalign, c`off
    ensures buf.Linked() && buf.parts == old(buf.parts)[i := old(buf.parts)[i][n..]]
    ensures |c.mem| == old(|c.mem|)
  {
    assert c.Ok() && c.Data() == buf.parts[i];
    SliceSlice(c.mem, c.misalign, c.misalign + c.off, n, c.off);
    c.misalign, c.off := c.misalign + n, c.off - n;
    buf.parts := buf.parts[i := buf.parts[i][n..]];
    assert c.Ok() && c.Data() == buf.parts[i];
  }

  /** ZERO_CHAIN. */
  method ZeroChain(buf: Evbuffer)
    modifies buf`first, buf`last, buf`lastWithDatap, buf`totalLen, buf`chains, buf`parts, buf`lwi
    ensures buf.Body() && buf.chains == [] && buf.Contents() == [] && buf.last == null && buf.totalLen == 0
  {
    buf.first, buf.last, buf.lastWithDatap, buf.totalLen := null, null, null, 0;
    buf.chains, buf.parts, buf.lwi := [], [], 0;
  }

  lemma CutInside(a: seq<Byte>, run: seq<Byte>, b: seq<Byte>, n: nat)
    requires n <= |run|
    ensures (a + run + b)[|a| + n..] == run[n..] + b
  {
  }

  /** What is left of the runs when `len` bytes are taken off the front. */
  lemma Shaved(parts: seq<seq<Byte>>, lwi: nat, k: nat, n: nat)
    requires IsLastWithData(parts, lwi) && k <= lwi < |parts| && n < |parts[k]|
    ensures var rest := parts[k..][0 := parts[k][n..]];
            && IsLastWithData(rest, lwi - k)
            && Before(parts, k) + n <= |Flat(parts)|
            && Flat(rest) == Flat(parts)[Before(parts, k) + n..]
    ensures Gapless(parts, lwi) ==> Gapless(parts[k..][0 := parts[k][n..]], lwi - k)
  {
    BeforeIs(parts, k);
    var rest := parts[k..][0 := parts[k][n..]];
    FlatAround(parts, k);
    assert rest == [parts[k][n..]] + parts[k + 1..];
    FlatCons(parts[k][n..], parts[k + 1..]);
    CutInside(Flat(parts[..k]), parts[k], Flat(parts[k + 1..]), n);
    forall i | lwi - k < i < |rest| ensures rest[i] == [] { assert rest[i] == parts[k + i]; }
    if lwi - k != 0 { assert rest[lwi - k] == parts[lwi]; }
  }

  /** When every run from k on is empty, all bytes come before it. */
  lemma EmptyAfter(parts: seq<seq<Byte>>, k: nat)
    requires k <= |parts| && AllEmpty(parts[k..])
    ensures Before(parts, k) == |Flat(parts)|
  {
    BeforeIs(parts, k);
    FlatTrim(parts, k);
  }

  /** Pass whole chains from the front while they fit in `len`; `c` is the first
      chain that stays and `previous` the one before it. */
  method PassChains(buf: Evbuffer, len: nat) returns (c: Chain, previous: Chain?, ghost k: nat, remaining: nat)
    requires buf.Body() && len < buf.totalLen
    modifies buf`lastWithDatap
    ensures k <= buf.lwi < |buf.chains| && c == buf.chains[k] && remaining < |buf.parts[k]|
    ensures previous == buf.At(k - 1)
    ensures Before(buf.parts, k) + remaining == len
    ensures buf.lastWithDatap == if k == buf.lwi then null else buf.chains[buf.lwi - 1]
  {
    k, remaining, previous := 0, len, null;
    assert buf.chains != [];
    c := buf.first;
    while remaining >= c.off
      invariant k <= buf.lwi < |buf.chains| && c == buf.chains[k] && previous == buf.At(k - 1)
      invariant Before(buf.parts, k) + remaining == len < |Flat(buf.parts)|
      invariant buf.lastWithDatap == if k == buf.lwi then null else buf.chains[buf.lwi - 1]
      decreases |buf.chains| - k
    {
      assert c.Data() == buf.parts[k];
      RunBytes(buf.parts, k);
      if k == buf.lwi { EmptyAfter(buf.parts, k + 1); }
      var next := c.next;
      remaining := remaining - c.off;
      if buf.lastWithDatap == c {
        buf.lastWithDatap := null;
      }
      previous, c := c, next;
      k := k + 1;
    }
    assert c.Data() == buf.parts[k];
  }

  /** Drop the first k chains and `n` bytes of the next. */
  method DropFront(buf: Evbuffer, c: Chain, ghost k: nat, n: nat)
    requires buf.Linked() && k <= buf.lwi < |buf.chains| && c == buf.chains[k] && n < |buf.parts[k]|
    requires IsLastWithData(buf.parts, buf.lwi)
    modifies buf`first, buf`chains, buf`parts, c`misalign, c`off
    ensures buf.Linked() && buf.chains == old(buf.chains)[k..]
    ensures IsLastWithData(buf.parts, buf.lwi - k)
    ensures Before(old(buf.parts), k) + n <= |old(buf.Contents())|
    ensures buf.Contents() == old(buf.Contents())[Before(old(buf.parts), k) + n..]
    ensures old(Gapless(buf.parts, buf.lwi)) ==> Gapless(buf.parts, buf.lwi - k)
  {
    Shaved(buf.parts, buf.lwi, k, n);
    UnlinkFront(buf, c, k);
    ShaveChain(buf, c, 0, n);
  }

  /** Drain fewer bytes than there are. */
  method DrainSome(buf: Evbuffer, len: nat)
    requires buf.Shape() && len < buf.totalLen
    modifies buf`first, buf`lastWithDatap, buf`totalLen, buf`chains, buf`parts, buf`lwi, buf.chains
    ensures buf.Shape()
    ensures buf.Contents() == old(buf.Contents())[len..]
    ensures forall i :: 0 <= i < |buf.chains| ==> buf.chains[i] in old(buf.chains)
    ensures old(Gapless(buf.parts, buf.lwi)) ==> Gapless(buf.parts, buf.lwi)
  {
    var c, _, k, remaining := PassChains(buf, len);
    DropFront(buf, c, k, remaining);
    buf.lwi := buf.lwi - k;
    buf.totalLen := buf.totalLen - len;
  }

  /** evbuffer_drain. */
  method Drain(buf: Evbuffer, len: nat)
    requires buf.Valid()
    modifies buf, buf.chains
    ensures buf.Valid()
    ensures buf.Contents() == if len < |old(buf.Contents())| then old(buf.Contents())[len..] else []
    ensures forall i :: 0 <= i < |buf.chains| ==> buf.chains[i] in old(buf.chains)
    ensures old(Gapless(buf.parts, buf.lwi)) ==> Gapless(buf.parts, buf.lwi)
    ensures buf.notices == if old(buf.totalLen) == 0 then old(buf.notices)
      else old(buf.Telling(0, if len < buf.totalLen then len else buf.totalLen))
  {
    if buf.totalLen == 0 {
    } else if len >= buf.totalLen {
      var n := buf.totalLen;
      ZeroChain(buf);
      buf.Account(0, n);
    } else {
      DrainSome(buf, len);
      buf.Account(0, len);
    }
  }

  /** Link `tmp` in front of the list. */
  method LinkFront(buf: Evbuffer, tmp: Chain)
    requires buf.Linked() && tmp !in buf.chains && tmp.Ok()
    modifies buf`first, buf`chains, buf`parts, tmp`next
    ensures buf.Linked()
    ensures buf.chains == [tmp] + old(buf.chains) && buf.parts == [tmp.Data()] + old(buf.parts)
  {
    ghost var cs := buf.chains;
    tmp.next := buf.first;
    buf.first := tmp;
    buf.chains, buf.parts := [tmp] + cs, [tmp.Data()] + buf.parts;
    forall i | 0 <= i < |buf.chains|
      ensures buf.chains[i].Ok() && buf.chains[i].Data() == buf.parts[i] && buf.chains[i].next == buf.At(i + 1)
    {
      if i > 0 {
        assert buf.chains[i] == cs[i - 1] && cs[i - 1].Data() == buf.parts[i];
        assert cs[i - 1].next == if i < |cs| then cs[i] else null;
      }
    }
  }

  /** A run in front moves the last one with data one place on. */
  lemma PushedFront(parts: seq<seq<Byte>>, lwi: nat, p: seq<Byte>)
    requires IsLastWithData(parts, lwi) && lwi < |parts|
    requires lwi == 0 ==> parts[0] != []
    ensures IsLastWithData([p] + parts, lwi + 1) && Flat([p] + parts) == p + Flat(parts)
  {
    FlatCons(p, parts);
    forall i | lwi + 1 < i < |parts| + 1 ensures ([p] + parts)[i] == [] { assert ([p] + parts)[i] == parts[i - 1]; }
  }

  /** Make `tmp` the first chain. */
  method PushFront(buf: Evbuffer, tmp: Chain)
    requires buf.Shape() && buf.chains != [] && buf.totalLen + tmp.off <= SIZE_MAX
    requires buf.lwi == 0 ==> buf.parts[0] != []
    requires tmp !in buf.chains && tmp.Ok() && tmp.off > 0
    modifies buf`first, buf`lastWithDatap, buf`totalLen, buf`chains, buf`parts, buf`lwi, tmp`next
    ensures buf.Shape()
    ensures buf.chains == [tmp] + old(buf.chains)
    ensures buf.Contents() == tmp.Data() + old(buf.Contents())
    ensures old(Gapless(buf.parts, buf.lwi)) ==> Gapless(buf.parts, buf.lwi)
  {
    PushedFront(buf.parts, buf.lwi, tmp.Data());
    if buf.lastWithDatap == null {
      buf.lastWithDatap := tmp;
    }
    buf.totalLen := buf.totalLen + tmp.off;
    buf.lwi := buf.lwi + 1;
    LinkFront(buf, tmp);
  }

  lemma GrownFirst(p: seq<seq<Byte>>, data: seq<Byte>)
    requires p != []
    ensures Flat(p[0 := data + p[0]]) == data + Flat(p)
  {
    assert p[0 := data + p[0]] == [data + p[0]] + p[1..];
    FlatCons(data + p[0], p[1..]);
  }

  /** Write `data` in front of the bytes of the first chain. */
  method GrowFirst(buf: Evbuffer, c: Chain, data: seq<Byte>)
    requires buf.Body() && c == buf.At(0) && |data| <= c.misalign && c.Ok() && buf.totalLen + |data| <= SIZE_MAX
    modifies buf`parts, buf`totalLen, c`mem, c`misalign, c`off
    ensures buf.Body() && c.Ok() && |c.mem| == old(|c.mem|) && c.misalign == old(c.misalign) - |data|
    ensures buf.parts == old(buf.parts)[0 := data + old(buf.parts)[0]]
    ensures buf.Contents() == data + old(buf.Contents())
  {
    ghost var p := buf.parts;
    assert c.Data() == p[0];
    GrownFirst(p, data);
    c.WriteBefore(data);
    buf.totalLen := buf.totalLen + |data|;
    buf.parts := p[0 := data + p[0]];
  }

  /** What fits of `data` goes in front of the first chain's bytes; the number of
      bytes still to place is returned. */
  method FillFront(buf: Evbuffer, c: Chain, data: seq<Byte>) returns (left: nat)
    requires buf.Body() && c == buf.At(0) && c.Ok() && buf.totalLen + |data| <= SIZE_MAX
    modifies buf`parts, buf`totalLen, c`mem, c`misalign, c`off
    ensures buf.Body() && left <= |data|
    ensures buf.Contents() == data[left..] + old(buf.Contents())
    ensures buf.totalLen == old(buf.totalLen) + |data| - left
    ensures left > 0 ==> buf.parts[0] != []
    ensures data == [] ==> buf.parts == old(buf.parts) && (old(c.off) == 0 ==> c.Ok() && c.Space() == 0)
    ensures old(Gapless(buf.parts, buf.lwi)) ==> Gapless(buf.parts, buf.lwi)
  {
    assert c.Data() == buf.parts[0];
    if c.off == 0 {
      c.misalign := |c.mem|;
      assert c.Data() == buf.parts[0] == [];
    }
    left := if c.misalign >= |data| then 0 else |data| - c.misalign;
    if data == [] { assert data[left..] + buf.parts[0] == buf.parts[0]; }
    GrowFirst(buf, c, data[left..]);
  }

  /** A new chain holding `data` at the end of its memory. */
  method ChainHolding(data: seq<Byte>) returns (tmp: Chain?)
    ensures tmp == null <==> |data| > MAX_CHAIN_MEM
    ensures tmp != null ==> fresh(tmp) && tmp.Ok() && tmp.off == |data| && tmp.Data() == data
  {
    tmp := ChainNew(|data|);
    if tmp != null {
      tmp.misalign := |tmp.mem|;
      tmp.WriteBefore(data);
    }
  }

  /** A new chain in front for `data`. */
  method PrependChain(buf: Evbuffer, data: seq<Byte>) returns (ok: bool)
    requires buf.Shape() && buf.chains != [] && buf.totalLen + |data| <= SIZE_MAX
    requires data != [] && (buf.lwi == 0 ==> buf.parts[0] != [])
    modifies buf`first, buf`lastWithDatap, buf`totalLen, buf`chains, buf`parts, buf`lwi
    ensures buf.Shape()
    ensures ok <==> |data| <= MAX_CHAIN_MEM
    ensures buf.Contents() == (if ok then data else []) + old(buf.Contents())
    ensures buf.chains == old(buf.chains) || (fresh(buf.chains[0]) && buf.chains[1..] == old(buf.chains))
    ensures old(Gapless(buf.parts, buf.lwi)) ==> Gapless(buf.parts, buf.lwi)
  {
    var tmp := ChainHolding(data);
    ok := tmp != null;
    if tmp != null {
      PushFront(buf, tmp);
    }
  }

  /** The first chain, made if there is none. */
  method FirstOrNew(buf: Evbuffer, datlen: nat) returns (c: Chain?)
    requires buf.Valid()
    modifies buf`first, buf`last, buf`lastWithDatap, buf`totalLen, buf`chains, buf`parts, buf`lwi
    ensures buf.Valid() && buf.Contents() == old(buf.Contents()) && buf.totalLen == old(buf.totalLen)
    ensures c == null ==> datlen > MAX_CHAIN_MEM
    ensures c != null ==> c == buf.At(0) && c.Ok()
    ensures buf.chains == old(buf.chains) || (buf.chains == [c] && fresh(c))
    ensures old(buf.chains) != [] ==> unchanged(buf)
    ensures old(Gapless(buf.parts, buf.lwi)) ==> Gapless(buf.parts, buf.lwi)
  {
    c := buf.first;
    if c == null {
      c := buf.FirstChain(datlen);
    } else {
      assert buf.chains[0].Data() == buf.parts[0];
    }
  }

  lemma FrontInTwo(data: seq<Byte>, left: nat, s: seq<Byte>)
    requires left <= |data|
    ensures data[..left] + (data[left..] + s) == data[0..] + s
  {
  }

  /** Put `data` in front of the bytes of the first chain `c`, and what does not fit
      there in a new chain; the number of bytes left out is returned. */
  method PrependTo(buf: Evbuffer, c: Chain, data: seq<Byte>) returns (left: nat)
    requires buf.Shape() && c == buf.At(0) && c.Ok() && buf.totalLen + |data| <= SIZE_MAX
    modifies buf`first, buf`lastWithDatap, buf`totalLen, buf`chains, buf`parts, buf`lwi, c
    ensures buf.Shape()
    ensures left <= |data| && (left == 0 || left > MAX_CHAIN_MEM)
    ensures buf.Contents() == data[left..] + old(buf.Contents())
    ensures buf.chains == old(buf.chains) || (fresh(buf.chains[0]) && buf.chains[1..] == old(buf.chains))
    ensures data == [] ==> buf.chains == old(buf.chains) && buf.parts == old(buf.parts)
    ensures data == [] && old(c.off) == 0 ==> c.Ok() && c.Space() == 0
    ensures old(Gapless(buf.parts, buf.lwi)) ==> Gapless(buf.parts, buf.lwi)
  {
    left := FillFront(buf, c, data);
    FrontInTwo(data, left, old(buf.Contents()));
    if left > 0 {
      var ok := PrependChain(buf, data[..left]);
      left := if ok then 0 else left;
    }
  }

  /** Nothing was put in front: only that an empty first chain has its room in front now, and
      none behind. */
  twostate predicate OnlyTurned(buf: Evbuffer)
    reads buf`chains, buf`parts, buf.chains
  {
    && buf.chains == old(buf.chains) && buf.parts == old(buf.parts)
    && (buf.chains != [] && old(buf.chains[0].off) == 0 ==> buf.chains[0].Ok() && buf.chains[0].Space() == 0)
  }

  /** evbuffer_prepend, up to its accounting: the number of bytes left out. */
  method PrependBytes(buf: Evbuffer, data: seq<Byte>) returns (left: nat)
    requires buf.Valid()
    modifies buf`first, buf`last, buf`lastWithDatap, buf`totalLen, buf`chains, buf`parts, buf`lwi, buf.first
    ensures buf.Shape()
    ensures left <= |data| && (left == 0 || old(buf.totalLen) + |data| > SIZE_MAX || left > MAX_CHAIN_MEM)
    ensures buf.Contents() == data[left..] + old(buf.Contents())
    ensures forall i :: 0 <= i < |buf.chains| ==> buf.chains[i] in old(buf.chains) || fresh(buf.chains[i])
    ensures data == [] && old(buf.chains) != [] ==> OnlyTurned(buf)
    ensures old(Gapless(buf.parts, buf.lwi)) ==> Gapless(buf.parts, buf.lwi)
  {
    left := |data|;
    if |data| <= SIZE_MAX - buf.totalLen {
      var chain := FirstOrNew(buf, |data|);
      if chain != null {
        left := PrependTo(buf, chain, data);
      }
    }
  }

  /** evbuffer_prepend.  When the bytes that do not fit the first chain ask for
      more than a chain may hold, it fails after those that do fit are in place. */
  method Prepend(buf: Evbuffer, data: seq<Byte>) returns (ok: bool, ghost left: nat)
    requires buf.Valid()
    modifies buf, buf.first
    ensures buf.Valid()
    ensures left <= |data| && (ok <==> left == 0)
    ensures buf.Contents() == data[left..] + old(buf.Contents())
    ensures !ok ==> old(buf.totalLen) + |data| > SIZE_MAX || left > MAX_CHAIN_MEM
    ensures forall i :: 0 <= i < |buf.chains| ==> buf.chains[i] in old(buf.chains) || fresh(buf.chains[i])
    ensures data == [] && old(buf.chains) != [] ==> OnlyTurned(buf)
    ensures old(Gapless(buf.parts, buf.lwi)) ==> Gapless(buf.parts, buf.lwi)
    ensures buf.notices == if ok then old(buf.Telling(|data|, 0)) else old(buf.notices)
  {
    var rest := PrependBytes(buf, data);
    ok, left := rest == 0, rest;
    NotePrepended(buf, |data| - rest, ok);
  }

  /** What was put in front is noted, and told if that is all of it. */
  method NotePrepended(buf: Evbuffer, n: nat, ok: bool)
    requires buf.Shape() && buf.Owes(n, 0)
    modifies buf`nAdd, buf`nDel, buf`notices, buf`seen
    ensures buf.Valid() && buf.notices == if ok then old(buf.Telling(n, 0)) else old(buf.notices)
  {
    buf.nAdd := buf.nAdd + n;
    if ok {
      buf.InvokeCallbacks();
    }
  }

  /** `m` bytes from the position `p` on, all in one chain. */
  method TakeFrom(buf: Evbuffer, p: Ptr, ghost k: nat, m: nat) returns (out: seq<Byte>)
    requires buf.Linked() && buf.Points(p, k) && p.chain != null && p.inChain + m <= p.chain.off
    ensures p.pos + m <= |buf.Contents()| && out == buf.Contents()[p.pos..p.pos + m]
    ensures p.inChain + m == p.chain.off ==> buf.Points(Ptr(p.pos + m, p.chain.next, 0), k + 1)
  {
    assert p.chain.Data() == buf.parts[k];
    RunBytes(buf.parts, k);
    BeforeIs(buf.parts, k);
    FlatRun(buf.parts, k);
    ghost var b := Before(buf.parts, k);
    SliceSlice(buf.Contents(), b, b + |buf.parts[k]|, p.inChain, p.inChain + m);
    out := p.chain.Slice(p.inChain, p.inChain + m);
  }

  /** The bytes of a chain from the position `p` on, and the position behind them. */
  method TakeRest(buf: Evbuffer, p: Ptr, ghost k: nat) returns (out: seq<Byte>, next: Ptr, ghost j: nat)
    requires buf.Linked() && buf.Points(p, k) && p.chain != null && p.inChain <= p.chain.off
    ensures j == k + 1 && buf.Points(next, j) && next.pos == p.pos + |out| && |out| == p.chain.off - p.inChain
    ensures next.pos <= |buf.Contents()| && out == buf.Contents()[p.pos..next.pos]
  {
    out := TakeFrom(buf, p, k, p.chain.off - p.inChain);
    next := Ptr(p.pos + |out|, p.chain.next, 0);
    j := k + 1;
  }

  /** The loop of evbuffer_copyout_from over the chains of which all is copied. */
  method CopyChains(buf: Evbuffer, p: Ptr, ghost k: nat, n: nat)
    returns (out: seq<Byte>, at: Ptr, rest: nat, ghost i: nat)
    requires buf.Valid() && buf.Points(p, k) && p.pos + n <= buf.totalLen
    ensures buf.Points(at, i) && p.pos <= at.pos && at.pos + rest == p.pos + n
    ensures out == buf.Contents()[p.pos..at.pos]
    ensures rest > 0 ==> at.chain != null && at.chain.Ok() && at.inChain + rest <= at.chain.off
  {
    ghost var all := buf.Contents();
    out, at, rest, i := [], p, n, k;
    AtEnd(buf.parts);
    assert i < |buf.chains| ==> at.chain.Data() == buf.parts[i];
    while rest > 0 && rest >= at.chain.off - at.inChain
      invariant buf.Points(at, i) && buf.Contents() == all
      invariant p.pos <= at.pos && at.pos + rest == p.pos + n <= |all|
      invariant out == all[p.pos..at.pos]
      invariant rest > 0 ==> at.chain != null && at.chain.Data() == buf.parts[i]
      decreases |buf.chains| - i
    {
      var piece;
      ghost var was := at.pos;
      piece, at, i := TakeRest(buf, at, i);
      SliceJoin(all, p.pos, was, at.pos);
      out := out + piece;
      rest := rest - |piece|;
      assert i < |buf.chains| ==> at.chain.Data() == buf.parts[i];
    }
  }

  /** evbuffer_copyout_from, from the position `p` in chain k. */
  method CopyoutFrom(buf: Evbuffer, p: Ptr, ghost k: nat, datlen: nat) returns (out: seq<Byte>)
    requires buf.Valid() && buf.Points(p, k) && p.pos <= buf.totalLen
    ensures out == buf.Contents()[p.pos..p.pos + Min(datlen, buf.totalLen - p.pos)]
  {
    var n: nat := Min(datlen, buf.totalLen - p.pos);
    var at, rest;
    ghost var i;
    out, at, rest, i := CopyChains(buf, p, k, n);
    if rest > 0 {
      var piece := TakeFrom(buf, at, i, rest);
      SliceJoin(buf.Contents(), p.pos, at.pos, p.pos + n);
      out := out + piece;
    }
  }

  /** The position of the first byte. */
  method Start(buf: Evbuffer) returns (p: Ptr)
    requires buf.Linked()
    ensures p.pos == 0 && buf.Points(p, 0)
  {
    p := Ptr(0, buf.first, 0);
  }

  /** evbuffer_remove. */
  method Remove(buf: Evbuffer, datlen: nat) returns (out: seq<Byte>)
    requires buf.Valid()
    modifies buf, buf.chains
    ensures buf.Valid()
    ensures |out| == Min(datlen, |old(buf.Contents())|)
    ensures out + buf.Contents() == old(buf.Contents())
    ensures forall i :: 0 <= i < |buf.chains| ==> buf.chains[i] in old(buf.chains)
    ensures old(Gapless(buf.parts, buf.lwi)) ==> Gapless(buf.parts, buf.lwi)
  {
    var p := Start(buf);
    out := CopyoutFrom(buf, p, 0, datlen);
    CutAt(buf.Contents(), out);
    if |out| > 0 {
      Drain(buf, |out|);
    }
  }

  lemma CutAt(s: seq<Byte>, out: seq<Byte>)
    requires |out| <= |s| && out == s[0..|out|]
    ensures out + s[|out|..] == s && s[0..] == s
  {
  }
}
