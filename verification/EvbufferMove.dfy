/** Moving chains from one buffer to another. */
module EvbufferMove {
  import opened Common
  import opened Bytes
  import opened Evbuffers
  import opened EvbufferQueue

  ghost predicate Disjoint(a: seq<Chain>, b: seq<Chain>) {
    forall c {:trigger c in a} {:trigger c in b} :: !(c in a && c in b)
  }

  /** The two buffers own different chains. */
  ghost predicate Apart(a: Evbuffer, b: Evbuffer)
    reads a`chains, b`chains
  {
    a != b && Disjoint(a.chains, b.chains)
  }

  lemma HasData(parts: seq<seq<Byte>>, k: nat)
    requires IsLastWithData(parts, k) && Flat(parts) != []
    ensures k < |parts| && parts[k] != []
  {
    if k == 0 && parts != [] && parts[0] == [] {
      assert AllEmpty(parts);
      FlatOfEmpties(parts);
    }
  }

  /** Runs behind others: the last one with data is theirs. */
  lemma LastBehind(a: seq<seq<Byte>>, b: seq<seq<Byte>>, k: nat)
    requires IsLastWithData(b, k) && Flat(b) != []
    ensures IsLastWithData(a + b, |a| + k) && Flat(a + b) == Flat(a) + Flat(b)
    ensures k < |b| && (Gapless(a, |a|) && Gapless(b, k) ==> Gapless(a + b, |a| + k))
  {
    HasData(b, k);
    FlatConcat(a, b);
    forall i | |a| + k < i < |a| + |b| ensures (a + b)[i] == [] { assert (a + b)[i] == b[i - |a|]; }
  }

  /** Runs behind others leave a gap exactly when there was one, or one of the others is empty. */
  lemma GapsBehind(a: seq<seq<Byte>>, b: seq<seq<Byte>>, k: nat)
    requires k < |b|
    ensures Gapless(a + b, |a| + k) <==> Gapless(a, |a|) && Gapless(b, k)
  {
    assert forall i {:trigger a[i]} :: 0 <= i < |a| ==> (a + b)[i] == a[i];
    assert forall i {:trigger b[i]} :: 0 <= i < |b| ==> (a + b)[|a| + i] == b[i];
  }

  lemma NoDupConcat(a: seq<Chain>, b: seq<Chain>)
    requires NoDup(a) && NoDup(b) && Disjoint(a, b)
    ensures NoDup(a + b)
  {
    forall i, j | 0 <= i < j < |a| + |b| ensures (a + b)[i] != (a + b)[j] {
      if i < |a| <= j { assert a[i] in a && b[j - |a|] in b; }
    }
  }

  /** The list of chains `cs`, which starts at `head`, linked behind those of `dst`. */
  method LinkBehind(dst: Evbuffer, slot: Chain?, head: Chain?, ghost cs: seq<Chain>, ghost ps: seq<seq<Byte>>)
    requires dst.Linked() && Chained(cs, ps) && Disjoint(dst.chains, cs)
    requires slot == dst.At(|dst.chains| - 1) && head == if cs == [] then null else cs[0]
    modifies dst`first, dst`chains, dst`parts, dst.chains`next
    ensures dst.Linked()
    ensures dst.chains == old(dst.chains) + cs && dst.parts == old(dst.parts) + ps
  {
    ghost var a := dst.chains;
    NoDupConcat(a, cs);
    assert slot != null ==> slot in a;
    if slot == null { dst.first := head; } else { slot.next := head; }
    dst.chains, dst.parts := a + cs, dst.parts + ps;
    forall i | 0 <= i < |dst.chains|
      ensures dst.chains[i].Ok() && dst.chains[i].Data() == dst.parts[i]
    {
      if i < |a| { assert a[i].Data() == dst.parts[i]; } else { assert cs[i - |a|].Data() == dst.parts[i]; }
    }
    forall i | 0 <= i < |dst.chains| ensures dst.chains[i].next == dst.At(i + 1) {
      if i >= |a| {
        var j := i - |a|;
        assert cs[j] in cs;
        assert cs[j].next == old(cs[j].next) == if j + 1 < |cs| then cs[j + 1] else null;
      }
    }
  }

  /** APPEND_CHAIN and COPY_CHAIN's linking: all chains of `src` behind the chains of
      `dst`, which end with data or are none. */
  method TakeAll(dst: Evbuffer, slot: Chain?, src: Evbuffer)
    requires dst.Body() && src.Body() && Apart(dst, src) && src.totalLen > 0
    requires slot == dst.At(|dst.chains| - 1)
    requires dst.totalLen + src.totalLen <= SIZE_MAX && src.last == src.At(|src.chains| - 1)
    modifies dst`first, dst`last, dst`lastWithDatap, dst`totalLen, dst`chains, dst`parts, dst`lwi, dst.chains`next
    ensures dst.Shape()
    ensures dst.chains == old(dst.chains) + src.chains
    ensures dst.Contents() == old(dst.Contents()) + src.Contents()
    ensures old(Gapless(dst.parts, |dst.parts|)) && Gapless(src.parts, src.lwi) ==> Gapless(dst.parts, dst.lwi)
  {
    LastBehind(dst.parts, src.parts, src.lwi);
    if src.lastWithDatap == null {
      dst.lastWithDatap := slot;
    } else {
      dst.lastWithDatap := src.lastWithDatap;
    }
    dst.lwi := |dst.chains| + src.lwi;
    dst.last := src.last;
    dst.totalLen := dst.totalLen + src.totalLen;
    LinkBehind(dst, slot, src.first, src.chains, src.parts);
  }

  /** Where chains moved in go: a buffer with no bytes gives up its chains, another
      one its empty chains at the end. */
  method ClearTail(dst: Evbuffer) returns (slot: Chain?)
    requires dst.Valid()
    modifies dst`first, dst`last, dst`lastWithDatap, dst`totalLen, dst`chains, dst`parts, dst`lwi, dst.chains`next
    ensures dst.Body() && slot == dst.At(|dst.chains| - 1)
    ensures dst.Contents() == old(dst.Contents()) && dst.totalLen == old(dst.totalLen)
    ensures dst.chains <= old(dst.chains)
    ensures old(Gapless(dst.parts, dst.lwi)) ==> Gapless(dst.parts, |dst.parts|)
  {
    if dst.totalLen == 0 {
      ZeroChain(dst);
      slot := null;
    } else {
      slot := dst.FreeTrailingEmptyChains();
    }
  }

  /** All chains of `src` go behind those of `dst`. */
  method MoveBehind(dst: Evbuffer, src: Evbuffer)
    requires dst.Valid() && src.Valid() && Apart(dst, src) && src.totalLen > 0
    requires dst.totalLen + src.totalLen <= SIZE_MAX
    modifies dst`first, dst`last, dst`lastWithDatap, dst`totalLen, dst`chains, dst`parts, dst`lwi, dst.chains`next
    modifies src`first, src`last, src`lastWithDatap, src`totalLen, src`chains, src`parts, src`lwi
    ensures dst.Shape() && src.Shape() && src.chains == []
    ensures dst.Contents() == old(dst.Contents() + src.Contents()) && src.Contents() == []
    ensures forall i :: 0 <= i < |dst.chains| ==> dst.chains[i] in old(dst.chains) || dst.chains[i] in old(src.chains)
    ensures old(Gapless(dst.parts, dst.lwi) && Gapless(src.parts, src.lwi)) ==> Gapless(dst.parts, dst.lwi)
  {
    assert forall i {:trigger src.chains[i].next} :: 0 <= i < |src.chains| ==> src.chains[i] in src.chains;
    var slot := ClearTail(dst);
    TakeAll(dst, slot, src);
    ZeroChain(src);
  }

  /** Both sides of a move are noted. */
  method AccountBoth(dst: Evbuffer, src: Evbuffer, n: nat)
    requires dst.Shape() && src.Shape() && dst != src && dst.Owes(n, 0) && src.Owes(0, n)
    modifies dst`nAdd, dst`nDel, dst`notices, dst`seen, src`nAdd, src`nDel, src`notices, src`seen
    ensures dst.Valid() && src.Valid()
    ensures src.notices == old(src.Telling(0, n)) && dst.notices == old(dst.Telling(n, 0))
  {
    src.Account(0, n);
    dst.Account(n, 0);
  }

  /** evbuffer_add_buffer, for two buffers. */
  method AddOther(dst: Evbuffer, src: Evbuffer)
    requires dst.Valid() && src.Valid() && Apart(dst, src)
    requires dst.totalLen + src.totalLen <= SIZE_MAX
    modifies dst, src, dst.chains
    ensures dst.Valid() && src.Valid() && Apart(dst, src)
    ensures dst.Contents() == old(dst.Contents() + src.Contents()) && src.Contents() == []
    ensures forall i :: 0 <= i < |dst.chains| ==> dst.chains[i] in old(dst.chains) || dst.chains[i] in old(src.chains)
    ensures src.chains == [] || src.chains == old(src.chains)
    ensures old(Gapless(src.parts, src.lwi)) ==> Gapless(src.parts, src.lwi)
    ensures old(Gapless(dst.parts, dst.lwi) && Gapless(src.parts, src.lwi)) ==> Gapless(dst.parts, dst.lwi)
    ensures old(src.totalLen) == 0 ==> dst.notices == old(dst.notices) && src.notices == old(src.notices)
    ensures old(src.totalLen) > 0 ==> src.notices == old(src.Telling(0, src.totalLen))
    ensures old(src.totalLen) > 0 ==> dst.notices == old(dst.Telling(src.totalLen, 0))
  {
    if src.totalLen > 0 {
      var n := src.totalLen;
      MoveBehind(dst, src);
      AccountBoth(dst, src, n);
    }
  }

  /** evbuffer_add_buffer.  A buffer added to itself stays as it is. */
  method AddBuffer(dst: Evbuffer, src: Evbuffer)
    requires dst.Valid() && src.Valid() && (dst == src || Apart(dst, src))
    requires dst != src ==> dst.totalLen + src.totalLen <= SIZE_MAX
    modifies dst, src, dst.chains
    ensures dst.Valid() && src.Valid() && (dst == src || Apart(dst, src))
    ensures dst == src ==> dst.Contents() == old(dst.Contents()) && dst.chains == old(dst.chains)
    ensures dst != src ==> dst.Contents() == old(dst.Contents() + src.Contents()) && src.Contents() == []
    ensures forall i :: 0 <= i < |dst.chains| ==> dst.chains[i] in old(dst.chains) || dst.chains[i] in old(src.chains)
    ensures src.chains == [] || src.chains == old(src.chains)
    ensures old(Gapless(src.parts, src.lwi)) ==> Gapless(src.parts, src.lwi)
    ensures old(Gapless(dst.parts, dst.lwi) && Gapless(src.parts, src.lwi)) ==> Gapless(dst.parts, dst.lwi)
    ensures dst == src || old(src.totalLen) == 0 ==>
      dst.notices == old(dst.notices) && src.notices == old(src.notices)
    ensures dst != src && old(src.totalLen) > 0 ==> src.notices == old(src.Telling(0, src.totalLen))
    ensures dst != src && old(src.totalLen) > 0 ==> dst.notices == old(dst.Telling(src.totalLen, 0))
  {
    if dst != src {
      AddOther(dst, src);
    }
  }

  /** The list of `src` linked in front of the list of `dst`. */
  method LinkBefore(dst: Evbuffer, src: Evbuffer)
    requires dst.Linked() && src.Linked() && Apart(dst, src)
    requires src.chains != [] && src.last == src.At(|src.chains| - 1)
    modifies dst`first, dst`chains, dst`parts, src.last`next
    ensures dst.Linked()
    ensures dst.chains == src.chains + old(dst.chains) && dst.parts == src.parts + old(dst.parts)
  {
    ghost var a, b := src.chains, dst.chains;
    NoDupConcat(a, b);
    assert src.last in a;
    src.last.next := dst.first;
    dst.first := src.first;
    dst.chains, dst.parts := a + b, src.parts + dst.parts;
    forall i | 0 <= i < |dst.chains|
      ensures dst.chains[i].Ok() && dst.chains[i].Data() == dst.parts[i]
    {
      if i < |a| { assert a[i].Data() == dst.parts[i]; } else { assert b[i - |a|].Data() == dst.parts[i]; }
    }
    forall i | 0 <= i < |dst.chains| ensures dst.chains[i].next == dst.At(i + 1) {
      if i >= |a| {
        assert b[i - |a|].next == old(b[i - |a|].next) == if i + 1 < |dst.chains| then b[i - |a| + 1] else null;
      }
    }
  }

  /** PREPEND_CHAIN: all chains of `src` in front of those of `dst`. */
  method MoveBefore(dst: Evbuffer, src: Evbuffer)
    requires dst.Shape() && src.Shape() && Apart(dst, src) && src.totalLen > 0 && dst.totalLen > 0
    requires dst.totalLen + src.totalLen <= SIZE_MAX
    modifies dst`first, dst`lastWithDatap, dst`totalLen, dst`chains, dst`parts, dst`lwi, src.last`next
    ensures dst.Shape() && dst.chains == src.chains + old(dst.chains) && dst.parts == src.parts + old(dst.parts)
    ensures dst.Contents() == src.Contents() + old(dst.Contents())
    ensures Gapless(dst.parts, dst.lwi) <==> old(Gapless(src.parts, |src.parts|) && Gapless(dst.parts, dst.lwi))
  {
    LastBehind(src.parts, dst.parts, dst.lwi);
    GapsBehind(src.parts, dst.parts, dst.lwi);
    dst.totalLen := dst.totalLen + src.totalLen;
    if dst.lastWithDatap == null {
      dst.lastWithDatap := src.last;
    }
    dst.lwi := |src.chains| + dst.lwi;
    LinkBefore(dst, src);
  }

  /** All chains of `src` go in front of those of `dst`. */
  method MoveInFront(dst: Evbuffer, src: Evbuffer)
    requires dst.Valid() && src.Valid() && Apart(dst, src) && src.totalLen > 0
    requires dst.totalLen + src.totalLen <= SIZE_MAX
    modifies dst`first, dst`last, dst`lastWithDatap, dst`totalLen, dst`chains, dst`parts, dst`lwi, dst.chains`next
    modifies src`first, src`last, src`lastWithDatap, src`totalLen, src`chains, src`parts, src`lwi, src.chains`next
    ensures dst.Shape() && src.Shape() && src.chains == []
    ensures unchanged(dst`notices, dst`nAdd, dst`nDel, dst`seen, src`notices, src`nAdd, src`nDel, src`seen)
    ensures dst.Contents() == old(src.Contents() + dst.Contents()) && src.Contents() == []
    ensures forall i :: 0 <= i < |dst.chains| ==> dst.chains[i] in old(dst.chains) || dst.chains[i] in old(src.chains)
    ensures old(dst.totalLen) > 0 ==>
              dst.chains == old(src.chains + dst.chains) && dst.parts == old(src.parts + dst.parts)
    ensures old(dst.totalLen) > 0 ==>
              (Gapless(dst.parts, dst.lwi) <==> old(Gapless(src.parts, |src.parts|) && Gapless(dst.parts, dst.lwi)))
  {
    if dst.totalLen == 0 {
      MoveBehind(dst, src);
    } else {
      MoveBefore(dst, src);
      ZeroChain(src);
    }
  }

  /** evbuffer_prepend_buffer, for two buffers. */
  method PrependOther(dst: Evbuffer, src: Evbuffer)
    requires dst.Valid() && src.Valid() && Apart(dst, src)
    requires dst.totalLen + src.totalLen <= SIZE_MAX
    modifies dst, src, dst.chains, src.chains
    ensures dst.Valid() && src.Valid() && Apart(dst, src)
    ensures dst.Contents() == old(src.Contents() + dst.Contents()) && src.Contents() == []
    ensures forall i :: 0 <= i < |dst.chains| ==> dst.chains[i] in old(dst.chains) || dst.chains[i] in old(src.chains)
    ensures src.chains == [] || src.chains == old(src.chains)
    ensures old(dst.totalLen > 0 && src.totalLen > 0) ==>
              dst.chains == old(src.chains + dst.chains) && dst.parts == old(src.parts + dst.parts)
    ensures old(Gapless(src.parts, src.lwi)) ==> Gapless(src.parts, src.lwi)
    ensures old(dst.totalLen > 0 && src.totalLen > 0) ==>
              (Gapless(dst.parts, dst.lwi) <==> old(Gapless(src.parts, |src.parts|) && Gapless(dst.parts, dst.lwi)))
    ensures old(src.totalLen) == 0 ==> dst.notices == old(dst.notices) && src.notices == old(src.notices)
    ensures old(src.totalLen) > 0 ==> src.notices == old(src.Telling(0, src.totalLen))
    ensures old(src.totalLen) > 0 ==> dst.notices == old(dst.Telling(src.totalLen, 0))
  {
    if src.totalLen > 0 {
      PrependSome(dst, src);
    }
  }

  /** The same for a source that holds something. */
  method PrependSome(dst: Evbuffer, src: Evbuffer)
    requires dst.Valid() && src.Valid() && Apart(dst, src) && src.totalLen > 0
    requires dst.totalLen + src.totalLen <= SIZE_MAX
    modifies dst, src, dst.chains, src.chains
    ensures dst.Valid() && src.Valid() && src.chains == []
    ensures dst.Contents() == old(src.Contents() + dst.Contents()) && src.Contents() == []
    ensures forall i :: 0 <= i < |dst.chains| ==> dst.chains[i] in old(dst.chains) || dst.chains[i] in old(src.chains)
    ensures old(dst.totalLen) > 0 ==>
              dst.chains == old(src.chains + dst.chains) && dst.parts == old(src.parts + dst.parts)
    ensures old(dst.totalLen) > 0 ==>
              (Gapless(dst.parts, dst.lwi) <==> old(Gapless(src.parts, |src.parts|) && Gapless(dst.parts, dst.lwi)))
    ensures src.notices == old(src.Telling(0, src.totalLen)) && dst.notices == old(dst.Telling(src.totalLen, 0))
  {
    var n := src.totalLen;
    MoveInFront(dst, src);
    AccountBoth(dst, src, n);
  }

  /** evbuffer_prepend_buffer.  A buffer put in front of itself stays as it is. */
  method PrependBuffer(dst: Evbuffer, src: Evbuffer)
    requires dst.Valid() && src.Valid() && (dst == src || Apart(dst, src))
    requires dst != src ==> dst.totalLen + src.totalLen <= SIZE_MAX
    modifies dst, src, dst.chains, src.chains
    ensures dst.Valid() && src.Valid() && (dst == src || Apart(dst, src))
    ensures dst == src ==> dst.Contents() == old(dst.Contents()) && dst.chains == old(dst.chains)
    ensures dst != src ==> dst.Contents() == old(src.Contents() + dst.Contents()) && src.Contents() == []
    ensures forall i :: 0 <= i < |dst.chains| ==> dst.chains[i] in old(dst.chains) || dst.chains[i] in old(src.chains)
    ensures src.chains == [] || src.chains == old(src.chains)
    // all the chains move, the empty ones at the end too
    ensures dst != src && old(dst.totalLen > 0 && src.totalLen > 0) ==>
              dst.chains == old(src.chains + dst.chains) && dst.parts == old(src.parts + dst.parts)
    ensures old(Gapless(src.parts, src.lwi)) ==> Gapless(src.parts, src.lwi)
    // a gap arises just when an empty chain at the end is among them
    ensures dst != src && old(dst.totalLen > 0 && src.totalLen > 0) ==>
              (Gapless(dst.parts, dst.lwi) <==> old(Gapless(src.parts, |src.parts|) && Gapless(dst.parts, dst.lwi)))
  {
    if dst != src {
      PrependOther(dst, src);
    }
  }

  // ----- evbuffer_remove_buffer

  /** Where advance_last_with_data stops, starting from run i. */
  function AdvanceFrom(parts: seq<seq<Byte>>, i: nat): (r: nat)
    requires i < |parts|
    ensures i <= r < |parts|
    ensures forall j :: i < j <= r ==> parts[j] != []
    ensures r + 1 < |parts| ==> parts[r + 1] == []
    decreases |parts| - i
  {
    if i + 1 < |parts| && parts[i + 1] != [] then AdvanceFrom(parts, i + 1) else i
  }

  /** No empty run of parts[from..] has a run with data behind it. */
  ghost predicate NoHole(parts: seq<seq<Byte>>, from: nat) {
    forall i, j :: from <= i < j < |parts| && parts[j] != [] ==> parts[i] != []
  }

  /** advance_last_with_data finds the last run with data exactly when no empty run
      behind its start hides one. */
  lemma AdvanceExact(parts: seq<seq<Byte>>, i: nat)
    requires i < |parts| && (i != 0 ==> parts[i] != [])
    ensures IsLastWithData(parts, AdvanceFrom(parts, i)) <==> NoHole(parts, i + 1)
  {
    var r := AdvanceFrom(parts, i);
    if IsLastWithData(parts, r) {
      forall a, b | i + 1 <= a < b < |parts| && parts[b] != [] ensures parts[a] != [] {}
    }
    if NoHole(parts, i + 1) {
      assert r + 1 < |parts| ==> parts[r + 1] == [];
    }
  }

  /** advance_last_with_data. */
  method AdvanceLastWithData(buf: Evbuffer)
    requires buf.Linked() && buf.lwi < |buf.chains| && buf.lastWithDatap == buf.At(buf.lwi - 1)
    modifies buf`lastWithDatap, buf`lwi
    ensures buf.Linked()
    ensures buf.lwi == AdvanceFrom(buf.parts, old(buf.lwi)) && buf.lastWithDatap == buf.At(buf.lwi - 1)
  {
    var c := if buf.lastWithDatap == null then buf.first else buf.lastWithDatap.next;
    while c.next != null && c.next.off != 0
      invariant old(buf.lwi) <= buf.lwi < |buf.chains|
      invariant c == buf.At(buf.lwi) && buf.lastWithDatap == buf.At(buf.lwi - 1)
      invariant AdvanceFrom(buf.parts, buf.lwi) == AdvanceFrom(buf.parts, old(buf.lwi))
      decreases |buf.chains| - buf.lwi
    {
      assert buf.chains[buf.lwi + 1].Data() == buf.parts[buf.lwi + 1];
      buf.lastWithDatap := c;
      buf.lwi := buf.lwi + 1;
      c := c.next;
    }
    if c.next != null { assert buf.chains[buf.lwi + 1].Data() == buf.parts[buf.lwi + 1]; }
  }

  /** Cut the first k chains off the list. */
  method Detach(src: Evbuffer, previous: Chain, c: Chain, ghost k: nat)
    requires src.Linked() && 0 < k < |src.chains| && c == src.chains[k] && previous == src.chains[k - 1]
    modifies src`first, src`chains, src`parts, previous`next
    ensures src.Linked() && src.chains == old(src.chains)[k..] && src.parts == old(src.parts)[k..]
    ensures Chained(old(src.chains)[..k], old(src.parts)[..k])
  {
    previous.next := null;
    src.first := c;
    src.chains, src.parts := src.chains[k..], src.parts[k..];
  }

  /** A list cut in two has no chain in both. */
  lemma CutDisjoint(cs: seq<Chain>, k: nat)
    requires NoDup(cs) && k <= |cs|
    ensures Disjoint(cs[..k], cs[k..])
  {
  }

  /** Parts of lists apart are apart. */
  lemma PartsApart(d: seq<Chain>, s: seq<Chain>, n: nat, k: nat)
    requires Disjoint(d, s) && n <= |d| && k <= |s|
    ensures Disjoint(d[..n], s) && Disjoint(d, s[..k]) && Disjoint(d, s[k..])
  {
    forall c | c in d[..n] ensures c in d {}
    forall c | c in s[..k] || c in s[k..] ensures c in s {}
  }

  /** Cut the first k chains off `src` and link them behind those of `dst`. */
  method MoveLinks(dst: Evbuffer, slot: Chain?, src: Evbuffer, previous: Chain, c: Chain, ghost k: nat)
    requires dst.Linked() && src.Linked() && Apart(dst, src) && slot == dst.At(|dst.chains| - 1)
    requires 0 < k < |src.chains| && c == src.chains[k] && previous == src.chains[k - 1]
    modifies dst`first, dst`chains, dst`parts, dst.chains`next
    modifies src`first, src`chains, src`parts, previous`next
    ensures dst.Linked() && src.Linked() && Apart(dst, src)
    ensures src.chains == old(src.chains)[k..] && src.parts == old(src.parts)[k..]
    ensures dst.chains == old(dst.chains) + old(src.chains)[..k] && dst.parts == old(dst.parts) + old(src.parts)[..k]
  {
    ghost var stolen, runs := src.chains[..k], src.parts[..k];
    CutDisjoint(src.chains, k);
    PartsApart(dst.chains, src.chains, 0, k);
    var head := src.first;
    assert previous !in dst.chains;
    Detach(src, previous, c, k);
    assert forall i {:trigger src.chains[i].next} :: 0 <= i < |src.chains| ==> src.chains[i] in src.chains;
    LinkBehind(dst, slot, head, stolen, runs);
  }

  /** The same, in place of the empty chains at the end of `dst`. */
  method StealLinks(dst: Evbuffer, src: Evbuffer, previous: Chain, c: Chain, ghost k: nat)
    requires dst.Body() && src.Linked() && Apart(dst, src)
    requires 0 < k < |src.chains| && c == src.chains[k] && previous == src.chains[k - 1]
    modifies dst`first, dst`chains, dst`parts, dst.chains`next
    modifies src`first, src`chains, src`parts, previous`next
    ensures dst.Linked() && src.Linked() && Apart(dst, src)
    ensures src.chains == old(src.chains)[k..] && src.parts == old(src.parts)[k..]
    ensures dst.chains == old(dst.chains[..TrimLen(dst.parts, dst.lwi)] + src.chains[..k])
    ensures dst.parts == old(dst.parts[..TrimLen(dst.parts, dst.lwi)] + src.parts[..k])
    ensures dst.lwi <= old(TrimLen(dst.parts, dst.lwi)) && dst.lastWithDatap == dst.At(dst.lwi - 1)
    ensures forall i :: 0 <= i < |dst.chains| ==> dst.chains[i] in old(dst.chains) || dst.chains[i] in old(src.chains)
  {
    PartsApart(dst.chains, src.chains, TrimLen(dst.parts, dst.lwi), 0);
    assert forall i {:trigger src.chains[i].next} :: 0 <= i < |src.chains| ==> src.chains[i] in src.chains;
    var slot := dst.FreeTrailingEmptyChains();
    MoveLinks(dst, slot, src, previous, c, k);
  }

  /** The first k chains of `src` taken off it and put behind those of `dst`. */
  method StealChains(dst: Evbuffer, src: Evbuffer, previous: Chain, c: Chain, ghost k: nat, nread: nat)
    requires dst.Body() && src.Linked() && Apart(dst, src)
    requires 0 < k < |src.chains| && c == src.chains[k] && previous == src.chains[k - 1]
    modifies dst`first, dst`last, dst`lastWithDatap, dst`totalLen, dst`chains, dst`parts, dst`lwi, dst.chains`next
    modifies src`first, src`chains, src`parts, previous`next
    ensures dst.Linked() && src.Linked() && Apart(dst, src)
    ensures src.chains == old(src.chains)[k..] && src.parts == old(src.parts)[k..]
    ensures dst.chains == old(dst.chains[..TrimLen(dst.parts, dst.lwi)] + src.chains[..k])
    ensures dst.parts == old(dst.parts[..TrimLen(dst.parts, dst.lwi)] + src.parts[..k])
    ensures dst.lwi == AdvanceFrom(dst.parts, old(dst.lwi)) && dst.lastWithDatap == dst.At(dst.lwi - 1)
    ensures dst.totalLen == old(dst.totalLen) + nread
    ensures dst.last == dst.At(|dst.chains| - 1)
    ensures forall i :: 0 <= i < |dst.chains| ==> dst.chains[i] in old(dst.chains) || dst.chains[i] in old(src.chains)
    ensures dst.LastWithData() <==> IsLastWithData(dst.parts, dst.lwi)
  {
    StealLinks(dst, src, previous, c, k);
    dst.last, dst.totalLen := previous, dst.totalLen + nread;
    assert src.Linked() && dst.Linked();
    AdvanceLastWithData(dst);
  }

  /** How many whole runs the first `len` bytes hold. */
  ghost function Whole(parts: seq<seq<Byte>>, len: nat): (k: nat)
    ensures k <= |parts|
  {
    if parts == [] || |parts[0]| > len then 0 else 1 + Whole(parts[1..], len - |parts[0]|)
  }

  lemma {:induction false} WholeIs(parts: seq<seq<Byte>>, len: nat, k: nat, rem: nat)
    requires k < |parts| && |Flat(parts[..k])| + rem == len && rem < |parts[k]|
    ensures Whole(parts, len) == k
  {
    if k == 0 {
      assert parts[..0] == [];
    } else {
      assert parts[..k] == [parts[0]] + parts[1..][..k - 1];
      FlatCons(parts[0], parts[1..][..k - 1]);
      WholeIs(parts[1..], len - |parts[0]|, k - 1, rem);
    }
  }

  /** Some chain before the last one with data holds bytes, or there is none before it. */
  ghost predicate SourceKept(parts: seq<seq<Byte>>, lwi: nat)
    requires lwi <= |parts|
  {
    lwi > 0 ==> exists i :: 0 <= i < lwi && parts[i] != []
  }

  /** No empty run among those moved has one with data behind it; the first may be
      empty when there are no bytes to move it behind. */
  ghost predicate TargetKept(moved: seq<seq<Byte>>, dstEmpty: bool) {
    NoHole(moved, if dstEmpty then 1 else 0)
  }

  /** The bytes of the first k runs are none exactly when these are empty. */
  lemma {:induction false} NoBytes(parts: seq<seq<Byte>>)
    ensures Flat(parts) == [] <==> AllEmpty(parts)
  {
    if AllEmpty(parts) {
      FlatOfEmpties(parts);
    } else {
      var i :| 0 <= i < |parts| && parts[i] != [];
      FlatAround(parts, i);
    }
  }

  lemma NoHoleBehind(d: seq<seq<Byte>>, moved: seq<seq<Byte>>, from: nat)
    ensures NoHole(moved, from) <==> NoHole(d + moved, |d| + from)
  {
    var all := d + moved;
    assert forall i {:trigger moved[i]} :: 0 <= i < |moved| ==> all[|d| + i] == moved[i];
    if NoHole(moved, from) {
      forall i, j | |d| + from <= i < j < |all| && all[j] != [] ensures all[i] != [] {
        assert moved[j - |d|] != [] ==> moved[i - |d|] != [];
      }
    }
    if NoHole(all, |d| + from) {
      forall i, j | from <= i < j < |moved| && moved[j] != [] ensures moved[i] != [] {
        assert all[|d| + j] != [] ==> all[|d| + i] != [];
      }
    }
  }

  /** What advance_last_with_data does to a buffer that got new runs behind its own. */
  lemma TargetExact(own: seq<seq<Byte>>, lwi: nat, moved: seq<seq<Byte>>)
    requires IsLastWithData(own, lwi) && moved != []
    ensures var d := own[..TrimLen(own, lwi)];
            && lwi < |d + moved|
            && (d == [] <==> Flat(own) == [])
            && Flat(d + moved) == Flat(own) + Flat(moved)
            && (IsLastWithData(d + moved, AdvanceFrom(d + moved, lwi)) <==> TargetKept(moved, Flat(own) == []))
            && (Gapless(own, lwi) && Gapless(moved, |moved|) ==> Gapless(d + moved, AdvanceFrom(d + moved, lwi)))
  {
    var d := own[..TrimLen(own, lwi)];
    Trimmed(own, lwi);
    NoBytes(own);
    FlatConcat(d, moved);
    AdvanceExact(d + moved, lwi);
    NoHoleBehind(d, moved, if d == [] then 1 else 0);
  }

  /** What passing k runs without freeing them does to the last-with-data pointer of
      the buffer they came from. */
  lemma SourceExact(parts: seq<seq<Byte>>, lwi: nat, k: nat, rem: nat)
    requires IsLastWithData(parts, lwi) && k <= lwi < |parts| && rem < |parts[k]|
    ensures Flat(parts[..k]) == [] && 0 < k == lwi <==> !SourceKept(parts, lwi)
    ensures IsLastWithData(parts[k..], lwi - k)
    ensures Flat(parts) == Flat(parts[..k]) + Flat(parts[k..])
    ensures lwi != 0 ==> !IsLastWithData(parts, 0)
    ensures Gapless(parts, lwi) ==> Gapless(parts[k..], lwi - k) && Gapless(parts[..k], k)
  {
    NoBytes(parts[..k]);
    FlatSplit(parts, k);
    if lwi != 0 { assert parts[lwi] != []; }
    if Flat(parts[..k]) == [] && k < lwi { assert parts[k] != []; }
    forall i | lwi - k < i < |parts[k..]| ensures parts[k..][i] == [] { assert parts[k..][i] == parts[k + i]; }
  }

  /** What taking k runs that hold bytes does to the two buffers. */
  lemma TakenExact(own: seq<seq<Byte>>, dlwi: nat, parts: seq<seq<Byte>>, lwi: nat, k: nat, d: seq<seq<Byte>>)
    requires IsLastWithData(own, dlwi) && IsLastWithData(parts, lwi) && 0 < k <= lwi < |parts|
    requires parts[k] != [] && Flat(parts[..k]) != [] && d == own[..TrimLen(own, dlwi)] + parts[..k]
    ensures |Flat(parts[..k])| <= |Flat(parts)| && Flat(parts[k..]) == Flat(parts)[|Flat(parts[..k])|..]
    ensures dlwi < |d| && Flat(d) == Flat(own) + Flat(parts)[..|Flat(parts[..k])|]
    ensures IsLastWithData(d, AdvanceFrom(d, dlwi)) <==> TargetKept(parts[..k], |Flat(own)| == 0)
    ensures Gapless(own, dlwi) && Gapless(parts, lwi) ==> Gapless(d, AdvanceFrom(d, dlwi))
    ensures IsLastWithData(parts[k..], lwi - k) && (Gapless(parts, lwi) ==> Gapless(parts[k..], lwi - k))
    ensures SourceKept(parts, lwi)
  {
    SourceExact(parts, lwi, k, 0);
    TargetExact(own, dlwi, parts[..k]);
  }

  /** The k whole chains hold bytes: move them. */
  method TakeSome(dst: Evbuffer, src: Evbuffer, previous: Chain, c: Chain, ghost k: nat, nread: nat)
    requires dst.Body() && src.Linked() && Apart(dst, src)
    requires 0 < k <= src.lwi < |src.chains| && c == src.chains[k] && previous == src.chains[k - 1]
    requires IsLastWithData(src.parts, src.lwi) && src.parts[k] != []
    requires src.lastWithDatap == if k == src.lwi then null else src.chains[src.lwi - 1]
    requires nread == |Flat(src.parts[..k])| > 0
    modifies dst`first, dst`last, dst`lastWithDatap, dst`totalLen, dst`chains, dst`parts, dst`lwi, dst.chains`next
    modifies src`first, src`chains, src`parts, src`lwi, previous`next
    ensures dst.Linked() && src.Linked() && Apart(dst, src)
    ensures src.chains == old(src.chains)[k..] && src.parts == old(src.parts)[k..]
    ensures nread <= |old(src.Contents())| && src.Contents() == old(src.Contents())[nread..]
    ensures dst.Contents() == old(dst.Contents() + src.Contents()[..nread]) && dst.totalLen == |dst.Contents()|
    ensures src.LastWithData() && old(SourceKept(src.parts, src.lwi))
    ensures dst.LastWithData() <==> old(TargetKept(src.parts[..k], dst.totalLen == 0))
    ensures dst.last == dst.At(|dst.chains| - 1)
    ensures forall i :: 0 <= i < |dst.chains| ==> dst.chains[i] in old(dst.chains) || dst.chains[i] in old(src.chains)
    ensures old(Gapless(src.parts, src.lwi)) ==> Gapless(src.parts, src.lwi)
    ensures old(Gapless(dst.parts, dst.lwi) && Gapless(src.parts, src.lwi)) ==> Gapless(dst.parts, dst.lwi)
  {
    src.lwi := src.lwi - k;
    StealChains(dst, src, previous, c, k, nread);
    TakenExact(old(dst.parts), old(dst.lwi), old(src.parts), old(src.lwi), k, dst.parts);
  }

  /** No whole chain held bytes: nothing moves, but the pointer may have been reset. */
  method TakeNone(src: Evbuffer, ghost k: nat, ghost rem: nat)
    requires src.Linked() && k <= src.lwi < |src.chains| && rem < |src.parts[k]| && Flat(src.parts[..k]) == []
    requires IsLastWithData(src.parts, src.lwi)
    requires src.lastWithDatap == if k == src.lwi then null else src.chains[src.lwi - 1]
    modifies src`lwi
    ensures src.LastWithData() <==> SourceKept(src.parts, old(src.lwi))
    ensures forall empty :: TargetKept(src.parts[..k], empty)
    ensures old(Gapless(src.parts, src.lwi)) ==> Gapless(src.parts, src.lwi)
  {
    SourceExact(src.parts, src.lwi, k, rem);
    NoBytes(src.parts[..k]);
    if src.lastWithDatap == null {
      src.lwi := 0;
    }
  }

  /** The k whole chains that were passed go from `src` to `dst`, if they hold bytes. */
  method TakePassed(dst: Evbuffer, src: Evbuffer, previous: Chain?, c: Chain, ghost k: nat, nread: nat, ghost rem: nat)
    returns (ghost j: nat)
    requires dst.Shape() && src.Linked() && Apart(dst, src) && src.last == src.At(|src.chains| - 1)
    requires k <= src.lwi < |src.chains| && c == src.chains[k] && rem < |src.parts[k]|
    requires previous == src.At(k - 1) && IsLastWithData(src.parts, src.lwi)
    requires src.lastWithDatap == if k == src.lwi then null else src.chains[src.lwi - 1]
    requires nread == |Flat(src.parts[..k])|
    modifies dst`first, dst`last, dst`lastWithDatap, dst`totalLen, dst`chains, dst`parts, dst`lwi, dst.chains`next
    modifies src`first, src`chains, src`parts, src`lwi, src.chains`next
    ensures dst.Linked() && src.Linked() && Apart(dst, src)
    ensures j < |src.chains| && c == src.chains[j] && rem < |src.parts[j]| && Flat(src.parts[..j]) == []
    ensures nread <= |old(src.Contents())| && src.Contents() == old(src.Contents())[nread..]
    ensures dst.Contents() == old(dst.Contents() + src.Contents()[..nread]) && dst.totalLen == |dst.Contents()|
    ensures src.last == src.At(|src.chains| - 1) && dst.last == dst.At(|dst.chains| - 1)
    ensures src.LastWithData() <==> old(SourceKept(src.parts, src.lwi))
    ensures dst.LastWithData() <==> old(TargetKept(src.parts[..k], dst.totalLen == 0))
    ensures forall i :: 0 <= i < |dst.chains| ==> dst.chains[i] in old(dst.chains) || dst.chains[i] in old(src.chains)
    ensures forall i :: 0 <= i < |src.chains| ==> src.chains[i] in old(src.chains)
    ensures old(Gapless(src.parts, src.lwi)) ==> Gapless(src.parts, src.lwi)
    ensures old(Gapless(dst.parts, dst.lwi) && Gapless(src.parts, src.lwi)) ==> Gapless(dst.parts, dst.lwi)
    ensures nread == 0 ==> unchanged(dst) && src.parts == old(src.parts)
  {
    j := if nread > 0 then 0 else k;
    if nread > 0 {
      TakeSome(dst, src, previous, c, k, nread);
    } else {
      TakeNone(src, k, rem);
    }
  }

  /** The first half of evbuffer_remove_buffer: the whole chains within `len` bytes go
      from `src` to `dst`.  `c`, at position j of `src` afterwards, holds the `rem`
      bytes still to go. */
  method TakeWholeChains(dst: Evbuffer, src: Evbuffer, len: nat) returns (c: Chain, nread: nat, rem: nat, ghost j: nat)
    requires dst.Shape() && src.Shape() && Apart(dst, src)
    requires len < src.totalLen && dst.totalLen + src.totalLen <= SIZE_MAX
    modifies dst`first, dst`last, dst`lastWithDatap, dst`totalLen, dst`chains, dst`parts, dst`lwi, dst.chains`next
    modifies src`first, src`lastWithDatap, src`chains, src`parts, src`lwi, src.chains`next
    ensures dst.Linked() && src.Linked() && Apart(dst, src)
    ensures nread + rem == len && j < |src.chains| && c == src.chains[j] && rem < |src.parts[j]|
    ensures Flat(src.parts[..j]) == []
    ensures src.Contents() == old(src.Contents())[nread..]
    ensures dst.Contents() == old(dst.Contents() + src.Contents()[..nread]) && dst.totalLen == |dst.Contents()|
    ensures src.last == src.At(|src.chains| - 1) && dst.last == dst.At(|dst.chains| - 1)
    ensures src.LastWithData() <==> old(SourceKept(src.parts, src.lwi))
    ensures dst.LastWithData() <==> old(TargetKept(src.parts[..Whole(src.parts, len)], dst.totalLen == 0))
    ensures forall i :: 0 <= i < |dst.chains| ==> dst.chains[i] in old(dst.chains) || dst.chains[i] in old(src.chains)
    ensures forall i :: 0 <= i < |src.chains| ==> src.chains[i] in old(src.chains)
    ensures old(Gapless(src.parts, src.lwi)) ==> Gapless(src.parts, src.lwi)
    ensures old(Gapless(dst.parts, dst.lwi) && Gapless(src.parts, src.lwi)) ==> Gapless(dst.parts, dst.lwi)
    ensures nread == |Flat(old(src.parts)[..Whole(old(src.parts), len)])|
    ensures nread == 0 ==> unchanged(dst) && src.parts == old(src.parts)
  {
    var previous: Chain?;
    ghost var k: nat;
    c, previous, k, rem := PassChains(src, len);
    BeforeIs(src.parts, k);
    nread := len - rem;
    WholeIs(src.parts, len, k, rem);
    j := TakePassed(dst, src, previous, c, k, nread, rem);
  }

  /** Taking bytes off run j when the runs before it are empty. */
  lemma ShavedAt(parts: seq<seq<Byte>>, lwi: nat, j: nat, n: nat)
    requires IsLastWithData(parts, lwi) && j < |parts| && n < |parts[j]| && Flat(parts[..j]) == []
    ensures n <= |Flat(parts)|
    ensures Flat(parts[j := parts[j][n..]]) == Flat(parts)[n..]
    ensures IsLastWithData(parts[j := parts[j][n..]], lwi)
    ensures Gapless(parts, lwi) ==> Gapless(parts[j := parts[j][n..]], lwi)
  {
    var parts' := parts[j := parts[j][n..]];
    FlatAround(parts, j);
    FlatAround(parts', j);
    assert parts'[..j] == parts[..j] && parts'[j + 1..] == parts[j + 1..];
  }

  /** Take `n` more bytes from chain j, which holds the first bytes. */
  method ShaveSource(dst: Evbuffer, src: Evbuffer, c: Chain, ghost j: nat, n: nat, total: nat)
    requires src.Linked() && src.LastWithData() && src.last == src.At(|src.chains| - 1)
    requires j < |src.chains| && c == src.chains[j] && n < |src.parts[j]| && Flat(src.parts[..j]) == []
    requires total <= src.totalLen <= SIZE_MAX && src.totalLen - total == |src.Contents()| - n
    requires dst.Valid() && Apart(dst, src)
    modifies src`parts, src`totalLen, c`misalign, c`off
    ensures src.Shape() && n <= |old(src.Contents())| && src.Contents() == old(src.Contents())[n..]
    ensures src.totalLen == old(src.totalLen) - total
    ensures dst.Valid()
    ensures old(Gapless(src.parts, src.lwi)) ==> Gapless(src.parts, src.lwi)
  {
    ghost var ds := dst.chains;
    assert c in src.chains && forall i {:trigger ds[i]} :: 0 <= i < |ds| ==> ds[i] in ds;
    ShavedAt(src.parts, src.lwi, j, n);
    src.totalLen := src.totalLen - total;
    ShaveChain(src, c, j, n);
  }

  /** The chains of `src` are such that moving `datlen` of its bytes keeps both
      last-with-data pointers right. */
  ghost predicate Movable(dst: Evbuffer, src: Evbuffer, datlen: nat)
    reads dst`totalLen, src`parts, src`lwi, src`totalLen
  {
    0 < datlen < src.totalLen && src.lwi <= |src.parts| ==>
      SourceKept(src.parts, src.lwi) && TargetKept(src.parts[..Whole(src.parts, datlen)], dst.totalLen == 0)
  }

  /** evbuffer_add on one of two buffers leaves the other alone. */
  method AddBeside(dst: Evbuffer, src: Evbuffer, data: seq<Byte>, ghost told: seq<Notice>)
    requires dst.Valid() && src.Linked() && Apart(dst, src) && told == dst.Telling(|data|, 0)
    requires dst.totalLen + |data| <= SIZE_MAX && |data| <= MAX_CHAIN_MEM
    modifies dst, dst.chains
    ensures dst.Valid() && src.Linked() && Apart(dst, src)
    ensures dst.Contents() == old(dst.Contents()) + data
    ensures dst.notices == told && dst.nAdd == 0 && dst.nDel == 0
    ensures unchanged(src)
    ensures forall i :: 0 <= i < |dst.chains| ==> dst.chains[i] in old(dst.chains) || fresh(dst.chains[i])
    ensures old(Gapless(dst.parts, dst.lwi)) ==> Gapless(dst.parts, dst.lwi)
  {
    ghost var cs := src.chains;
    assert forall i {:trigger cs[i]} :: 0 <= i < |cs| ==> cs[i] in cs;
    var ok := dst.Add(data);
  }

  /** The first half of the move, when it keeps both pointers right. */
  method MoveWhole(dst: Evbuffer, src: Evbuffer, len: nat, ghost told: seq<Notice>)
    returns (c: Chain, nread: nat, rem: nat, ghost j: nat)
    requires dst.Valid() && told == dst.Telling(len, 0) && src.Shape() && Apart(dst, src)
    requires 0 < len < src.totalLen && Movable(dst, src, len) && dst.totalLen + src.totalLen <= SIZE_MAX
    modifies dst`first, dst`last, dst`lastWithDatap, dst`totalLen, dst`chains, dst`parts, dst`lwi, dst.chains`next
    modifies src`first, src`lastWithDatap, src`chains, src`parts, src`lwi, src.chains`next
    ensures dst.Shape() && src.Linked() && src.LastWithData() && Apart(dst, src)
    ensures src.last == src.At(|src.chains| - 1)
    ensures dst.Owes(nread, 0) && told == dst.Telling(nread + rem, 0)
    ensures nread + rem == len && j < |src.chains| && c == src.chains[j] && rem < |src.parts[j]|
    ensures Flat(src.parts[..j]) == [] && src.Contents() == old(src.Contents())[nread..]
    ensures dst.Contents() == old(dst.Contents() + src.Contents()[..nread]) && dst.totalLen + rem <= SIZE_MAX
    ensures forall i :: 0 <= i < |dst.chains| ==> dst.chains[i] in old(dst.chains) || dst.chains[i] in old(src.chains)
    ensures forall i :: 0 <= i < |src.chains| ==> src.chains[i] in old(src.chains)
    ensures old(Gapless(src.parts, src.lwi)) ==> Gapless(src.parts, src.lwi)
    ensures old(Gapless(dst.parts, dst.lwi) && Gapless(src.parts, src.lwi)) ==> Gapless(dst.parts, dst.lwi)
  {
    c, nread, rem, j := TakeWholeChains(dst, src, len);
    assert dst.Shape() && src.last == src.At(|src.chains| - 1);
  }

  /** The second half: the beginning of a chain of `src` is added to `dst`, which has been given
      the n bytes in front of it. */
  method AddRest(dst: Evbuffer, src: Evbuffer, c: Chain, ghost j: nat, n: nat, rem: nat, ghost told: seq<Notice>)
    requires dst.Shape() && dst.Owes(n, 0) && src.Linked() && Apart(dst, src)
    requires j < |src.chains| && c == src.chains[j] && rem <= |src.parts[j]|
    requires dst.totalLen + rem <= SIZE_MAX && src.LastWithData() && src.last == src.At(|src.chains| - 1)
    requires told == dst.Telling(n + rem, 0)
    modifies dst, dst.chains
    ensures dst.Valid() && src.Linked() && Apart(dst, src)
    ensures src.LastWithData() && src.last == src.At(|src.chains| - 1)
    ensures dst.Contents() == old(dst.Contents()) + src.parts[j][..rem]
    ensures dst.notices == told && dst.nAdd == 0 && dst.nDel == 0
    ensures unchanged(src)
    ensures forall i :: 0 <= i < |dst.chains| ==> dst.chains[i] in old(dst.chains) || fresh(dst.chains[i])
    ensures old(Gapless(dst.parts, dst.lwi)) ==> Gapless(dst.parts, dst.lwi)
  {
    assert c.Data() == src.parts[j];
    NoteAdded(dst, n);
    AddBeside(dst, src, c.Slice(0, rem), told);
  }

  /** Bytes that came from another buffer are noted. */
  method NoteAdded(dst: Evbuffer, n: nat)
    requires dst.Shape() && dst.Owes(n, 0)
    modifies dst`nAdd
    ensures dst.Valid() && dst.nAdd == old(dst.nAdd) + n
  {
    dst.nAdd := dst.nAdd + n;
  }

  /** Both halves of the move, one after the other. */
  method MoveHalves(dst: Evbuffer, src: Evbuffer, len: nat) returns (c: Chain, nread: nat, rem: nat, ghost j: nat)
    requires dst.Valid() && src.Shape() && Apart(dst, src)
    requires 0 < len < src.totalLen && Movable(dst, src, len) && dst.totalLen + src.totalLen <= SIZE_MAX
    modifies dst, dst.chains
    modifies src`first, src`lastWithDatap, src`chains, src`parts, src`lwi, src.chains
    ensures dst.Valid() && src.Linked() && src.LastWithData() && Apart(dst, src)
    ensures src.last == src.At(|src.chains| - 1)
    ensures nread + rem == len && j < |src.chains| && c == src.chains[j] && rem < |src.parts[j]|
    ensures Flat(src.parts[..j]) == [] && src.Contents() == old(src.Contents())[nread..]
    ensures dst.Contents() == old(dst.Contents() + src.Contents()[..nread]) + src.parts[j][..rem]
    ensures dst.notices == old(dst.Telling(len, 0)) && dst.nAdd == 0 && dst.nDel == 0
    ensures forall i :: 0 <= i < |dst.chains| ==>
              dst.chains[i] in old(dst.chains) || dst.chains[i] in old(src.chains) || fresh(dst.chains[i])
    ensures forall i :: 0 <= i < |src.chains| ==> src.chains[i] in old(src.chains)
    ensures old(Gapless(src.parts, src.lwi)) ==> Gapless(src.parts, src.lwi)
    ensures old(Gapless(dst.parts, dst.lwi) && Gapless(src.parts, src.lwi)) ==> Gapless(dst.parts, dst.lwi)
  {
    ghost var told := dst.Telling(len, 0);
    c, nread, rem, j := MoveWhole(dst, src, len, told);
    AddRest(dst, src, c, j, nread, rem, told);
  }

  /** What that comes to, as `dst` sees it. */
  method MoveBytes(dst: Evbuffer, src: Evbuffer, len: nat) returns (c: Chain, rem: nat, ghost j: nat)
    requires dst.Valid() && src.Shape() && Apart(dst, src)
    requires 0 < len < src.totalLen && Movable(dst, src, len) && dst.totalLen + src.totalLen <= SIZE_MAX
    modifies dst, dst.chains
    modifies src`first, src`lastWithDatap, src`chains, src`parts, src`lwi, src.chains
    ensures dst.Valid() && src.Linked() && src.LastWithData() && Apart(dst, src)
    ensures src.last == src.At(|src.chains| - 1)
    ensures rem <= len && j < |src.chains| && c == src.chains[j] && rem < |src.parts[j]| && Flat(src.parts[..j]) == []
    ensures src.Contents() == old(src.Contents()[len - rem..])
    ensures dst.Contents() == old(dst.Contents() + src.Contents()[..len])
    ensures dst.notices == old(dst.Telling(len, 0)) && dst.nAdd == 0 && dst.nDel == 0
    ensures forall i :: 0 <= i < |dst.chains| ==>
              dst.chains[i] in old(dst.chains) || dst.chains[i] in old(src.chains) || fresh(dst.chains[i])
    ensures forall i :: 0 <= i < |src.chains| ==> src.chains[i] in old(src.chains)
    ensures old(Gapless(src.parts, src.lwi)) ==> Gapless(src.parts, src.lwi)
    ensures old(Gapless(dst.parts, dst.lwi) && Gapless(src.parts, src.lwi)) ==> Gapless(dst.parts, dst.lwi)
  {
    var nread;
    c, nread, rem, j := MoveHalves(dst, src, len);
    MovedInTwo(old(src.Contents()), old(dst.Contents()), src.parts, j, nread, rem);
  }

  lemma CutFurther(s: seq<Byte>, n: nat, run: seq<Byte>, rest: seq<Byte>, m: nat)
    requires n <= |s| && s[n..] == run + rest && m <= |run|
    ensures n + m <= |s| && s[..n + m] == s[..n] + run[..m]
  {
    assert s == s[..n] + run + rest;
  }

  lemma MovedInTwo(s: seq<Byte>, d: seq<Byte>, parts: seq<seq<Byte>>, j: nat, nread: nat, rem: nat)
    requires nread <= |s| && Flat(parts) == s[nread..]
    requires j < |parts| && Flat(parts[..j]) == [] && rem <= |parts[j]|
    ensures nread + rem <= |s| && d + s[..nread] + parts[j][..rem] == d + s[..nread + rem]
  {
    FlatAround(parts, j);
    CutFurther(s, nread, parts[j], Flat(parts[j + 1..]), rem);
    assert d + s[..nread] + parts[j][..rem] == d + (s[..nread] + parts[j][..rem]);
  }

  /** The bytes moved, up to the accounts of `src`. */
  method MoveData(dst: Evbuffer, src: Evbuffer, len: nat)
    requires dst.Valid() && src.Shape() && Apart(dst, src)
    requires 0 < len < src.totalLen && Movable(dst, src, len) && dst.totalLen + src.totalLen <= SIZE_MAX
    modifies dst, dst.chains
    modifies src`first, src`lastWithDatap, src`chains, src`parts, src`lwi, src`totalLen, src.chains
    ensures dst.Valid() && src.Shape() && Apart(dst, src)
    ensures src.totalLen == old(src.totalLen) - len
    ensures src.Contents() == old(src.Contents())[len..]
    ensures dst.Contents() == old(dst.Contents() + src.Contents()[..len])
    ensures dst.notices == old(dst.Telling(len, 0)) && dst.nAdd == 0 && dst.nDel == 0
    ensures forall i :: 0 <= i < |dst.chains| ==>
              dst.chains[i] in old(dst.chains) || dst.chains[i] in old(src.chains) || fresh(dst.chains[i])
    ensures forall i :: 0 <= i < |src.chains| ==> src.chains[i] in old(src.chains)
    ensures old(Gapless(src.parts, src.lwi)) ==> Gapless(src.parts, src.lwi)
    ensures old(Gapless(dst.parts, dst.lwi) && Gapless(src.parts, src.lwi)) ==> Gapless(dst.parts, dst.lwi)
  {
    var c, rem;
    ghost var j;
    c, rem, j := MoveBytes(dst, src, len);
    assert c in src.chains;
    ShaveSource(dst, src, c, j, rem, len);
  }

  /** Fewer bytes move than `src` holds. */
  method RemovePart(src: Evbuffer, dst: Evbuffer, len: nat)
    requires dst.Valid() && src.Valid() && Apart(dst, src) && dst.totalLen + src.totalLen <= SIZE_MAX
    requires 0 < len < src.totalLen && Movable(dst, src, len)
    modifies dst, src, dst.chains, src.chains
    ensures dst.Valid() && src.Valid() && Apart(dst, src)
    ensures dst.Contents() == old(dst.Contents() + src.Contents()[..len])
    ensures src.Contents() == old(src.Contents())[len..]
    ensures dst.notices == old(dst.Telling(len, 0)) && src.notices == old(src.Telling(0, len))
    ensures forall i :: 0 <= i < |dst.chains| ==>
              dst.chains[i] in old(dst.chains) || dst.chains[i] in old(src.chains) || fresh(dst.chains[i])
    ensures forall i :: 0 <= i < |src.chains| ==> src.chains[i] in old(src.chains)
    ensures old(Gapless(src.parts, src.lwi)) ==> Gapless(src.parts, src.lwi)
    ensures old(Gapless(dst.parts, dst.lwi) && Gapless(src.parts, src.lwi)) ==> Gapless(dst.parts, dst.lwi)
  {
    MoveData(dst, src, len);
    AccountRest(dst, src, len);
  }

  /** What is left to note once the bytes are moved. */
  method AccountRest(dst: Evbuffer, src: Evbuffer, n: nat)
    requires dst.Valid() && src.Shape() && dst != src && src.Owes(0, n) && dst.nAdd == 0 && dst.nDel == 0
    modifies dst`nAdd, dst`nDel, dst`notices, dst`seen, src`nAdd, src`nDel, src`notices, src`seen
    ensures dst.Valid() && src.Valid()
    ensures dst.notices == old(dst.notices) && src.notices == old(src.Telling(0, n))
  {
    dst.InvokeCallbacks();
    src.Account(0, n);
  }

  /** evbuffer_remove_buffer, for two buffers. */
  method RemoveOther(src: Evbuffer, dst: Evbuffer, datlen: nat) returns (n: nat)
    requires dst.Valid() && src.Valid() && Apart(dst, src)
    requires dst.totalLen + src.totalLen <= SIZE_MAX && Movable(dst, src, datlen)
    modifies dst, src, dst.chains, src.chains
    ensures dst.Valid() && src.Valid() && Apart(dst, src)
    ensures n == Min(datlen, |old(src.Contents())|)
    ensures dst.Contents() == old(dst.Contents()) + old(src.Contents())[..n]
    ensures src.Contents() == old(src.Contents())[n..]
    ensures n == 0 ==> dst.notices == old(dst.notices) && src.notices == old(src.notices)
    ensures n > 0 ==> dst.notices == old(dst.Telling(Min(datlen, src.totalLen), 0))
    ensures n > 0 ==> src.notices == old(src.Telling(0, Min(datlen, src.totalLen)))
    ensures forall i :: 0 <= i < |dst.chains| ==>
              dst.chains[i] in old(dst.chains) || dst.chains[i] in old(src.chains) || fresh(dst.chains[i])
    ensures forall i :: 0 <= i < |src.chains| ==> src.chains[i] in old(src.chains)
    ensures old(Gapless(src.parts, src.lwi)) ==> Gapless(src.parts, src.lwi)
    ensures old(Gapless(dst.parts, dst.lwi) && Gapless(src.parts, src.lwi)) ==> Gapless(dst.parts, dst.lwi)
  {
    n := Min(datlen, src.totalLen);
    if datlen >= src.totalLen {
      AddBuffer(dst, src);
    } else if datlen > 0 {
      RemovePart(src, dst, datlen);
    }
  }

  /** evbuffer_remove_buffer.  Nothing moves from a buffer to itself. */
  method RemoveBuffer(src: Evbuffer, dst: Evbuffer, datlen: nat) returns (n: nat)
    requires dst.Valid() && src.Valid() && (dst == src || Apart(dst, src))
    requires dst != src ==> dst.totalLen + src.totalLen <= SIZE_MAX && Movable(dst, src, datlen)
    modifies dst, src, dst.chains, src.chains
    ensures dst.Valid() && src.Valid() && (dst == src || Apart(dst, src))
    ensures dst == src ==> n == 0 && dst.Contents() == old(dst.Contents()) && dst.chains == old(dst.chains)
    ensures dst != src ==> n == Min(datlen, |old(src.Contents())|)
    ensures dst != src ==> dst.Contents() == old(dst.Contents()) + old(src.Contents())[..n]
    ensures dst != src ==> src.Contents() == old(src.Contents())[n..]
    ensures n == 0 ==> dst.notices == old(dst.notices) && src.notices == old(src.notices)
    ensures n > 0 ==> dst.notices == old(dst.Telling(Min(datlen, src.totalLen), 0))
    ensures n > 0 ==> src.notices == old(src.Telling(0, Min(datlen, src.totalLen)))
    ensures forall i :: 0 <= i < |dst.chains| ==>
              dst.chains[i] in old(dst.chains) || dst.chains[i] in old(src.chains) || fresh(dst.chains[i])
    ensures forall i :: 0 <= i < |src.chains| ==> src.chains[i] in old(src.chains)
    // gaps do not arise here
    ensures old(Gapless(src.parts, src.lwi)) ==> Gapless(src.parts, src.lwi)
    ensures old(Gapless(dst.parts, dst.lwi) && Gapless(src.parts, src.lwi)) ==> Gapless(dst.parts, dst.lwi)
  {
    n := 0;
    if src != dst {
      n := RemoveOther(src, dst, datlen);
    }
  }

  /** A source without gaps can be moved from in any amount, to any buffer. */
  lemma GaplessMovable(dst: Evbuffer, src: Evbuffer, datlen: nat)
    requires src.Valid() && Gapless(src.parts, src.lwi)
    ensures Movable(dst, src, datlen)
  {
    if src.lwi > 0 { assert src.parts[0] != []; }
  }
}
