/** Reading into the free space of the last few chains of a buffer. */
module EvbufferRead {
  import opened Common
  import opened Bytes
  import opened Evbuffers

  const NUM_READ_IOVEC := 4

  function Sum(gaps: seq<nat>): nat {
    if gaps == [] then 0 else Sum(gaps[..|gaps| - 1]) + gaps[|gaps| - 1]
  }

  function NonZero(gaps: seq<nat>): nat {
    if gaps == [] then 0 else NonZero(gaps[..|gaps| - 1]) + if gaps[|gaps| - 1] > 0 then 1 else 0
  }

  lemma {:induction false} NonZeroBelow(gaps: seq<nat>)
    ensures NonZero(gaps) <= |gaps|
    decreases |gaps|
  {
    if gaps != [] {
      NonZeroBelow(gaps[..|gaps| - 1]);
    }
  }

  lemma Snoc(gaps: seq<nat>, x: nat)
    ensures Sum(gaps + [x]) == Sum(gaps) + x && NonZero(gaps + [x]) == NonZero(gaps) + if x > 0 then 1 else 0
  {
    assert (gaps + [x])[..|gaps|] == gaps;
  }

  lemma {:induction false} FirstGap(gaps: seq<nat>)
    requires gaps != []
    ensures gaps[0] <= Sum(gaps)
    decreases |gaps|
  {
    if |gaps| > 1 {
      FirstGap(gaps[..|gaps| - 1]);
    }
  }

  /** The chains from f on have these amounts of free space. */
  ghost predicate Room(buf: Evbuffer, f: nat, gaps: seq<nat>)
    reads buf`chains, buf.chains
  {
    && f + |gaps| <= |buf.chains|
    && forall k {:trigger buf.chains[k]} :: f <= k < f + |gaps| ==>
      buf.chains[k].Ok() && buf.chains[k].Space() == gaps[k - f]
  }

  /** Moves the misaligned start of an empty chain back to the start of its memory. */
  method Reset(buf: Evbuffer, c: Chain, ghost k: nat, ghost f: nat, ghost gaps: seq<nat>)
    requires buf.Linked() && k < |buf.chains| && buf.chains[k] == c && c.off == 0
    requires Room(buf, f, gaps) && f + |gaps| == k
    modifies c`misalign
    ensures buf.Linked() && c.Ok() && c.Space() == |c.mem| && Room(buf, f, gaps)
  {
    assert c.Ok() && c.Data() == buf.parts[k];
    c.misalign := 0;
    assert c.Data() == [];
  }

  /** What the scan has found: how much space, and in how many chains. */
  ghost predicate Tally(gaps: seq<nat>, avail: nat, used: nat) {
    && Sum(gaps) == avail && NonZero(gaps) == used
    && forall t {:trigger gaps[t]} :: 0 < t < |gaps| ==> gaps[t] > 0
  }

  lemma TallyOne(gaps: seq<nat>, avail: nat, used: nat, space: nat)
    requires Tally(gaps, avail, used) && (gaps != [] ==> space > 0)
    ensures Tally(gaps + [space], avail + space, used + if space > 0 then 1 else 0)
  {
    Snoc(gaps, space);
  }

  /** One round of the scan of evbuffer_expand_fast_: the space in chain k. */
  method RoomAt(buf: Evbuffer, c: Chain, ghost k: nat, ghost f: nat, ghost gaps: seq<nat>, ghost avail: nat,
      ghost used: nat)
    returns (space: nat)
    requires buf.Linked() && k < |buf.chains| && buf.chains[k] == c && (gaps != [] ==> buf.parts[k] == [])
    requires Room(buf, f, gaps) && f + |gaps| == k && Tally(gaps, avail, used)
    modifies c`misalign
    ensures buf.Linked() && Room(buf, f, gaps + [space]) && c.next == buf.At(k + 1)
    ensures Tally(gaps + [space], avail + space, used + if space > 0 then 1 else 0)
  {
    assert c.Ok() && c.Data() == buf.parts[k];
    if c.off == 0 {
      Reset(buf, c, k, f, gaps);
    }
    space := c.Space();
    TallyOne(gaps, avail, used, space);
    RoomMore(buf, f, gaps, gaps + [space]);
  }

  /** The scan of evbuffer_expand_fast_: looks for `datlen` bytes of space in at most n
      chains, from chain f on. */
  method ScanRoom(buf: Evbuffer, chain0: Chain, ghost f: nat, datlen: nat, n: nat)
    returns (avail: nat, used: nat, ghost gaps: seq<nat>)
    requires buf.Linked() && f < |buf.chains| && buf.chains[f] == chain0 && n >= 2
    requires forall k :: f < k < |buf.parts| ==> buf.parts[k] == []
    modifies buf.chains`misalign
    ensures unchanged(buf)
    ensures buf.Linked() && Room(buf, f, gaps) && Tally(gaps, avail, used) && used <= n && gaps != []
    ensures avail >= datlen || used == n || f + |gaps| == |buf.chains|
  {
    ghost var cs := buf.chains;
    var chain: Chain? := chain0;
    avail, used, gaps := 0, 0, [];
    var more := true;
    while more && chain != null
      invariant buf.Linked() && Room(buf, f, gaps) && chain == buf.At(f + |gaps|)
      invariant Tally(gaps, avail, used) && used <= n
      invariant if more then used < n else avail >= datlen || used == n
      invariant gaps == [] ==> more && chain == chain0
      decreases |buf.chains| - |gaps|, more
    {
      assert chain in cs;
      ghost var k := f + |gaps|;
      var space := RoomAt(buf, chain, k, f, gaps, avail, used);
      gaps := gaps + [space];
      avail := avail + space;
      if space > 0 { used := used + 1; }
      more := avail < datlen && used < n;
      chain := chain.next;
    }
  }

  /** An empty chain linked behind the last one. */
  method AddEmpty(buf: Evbuffer, tmp: Chain)
    requires buf.Shape() && buf.chains != [] && tmp !in buf.chains && tmp.Ok() && tmp.off == 0 && tmp.next == null
    modifies buf`first, buf`last, buf`chains, buf`parts, buf.chains`next
    ensures buf.Shape() && buf.Contents() == old(buf.Contents())
    ensures buf.chains == old(buf.chains) + [tmp] && buf.lwi == old(buf.lwi)
  {
    assert tmp.Data() == [];
    FlatSnoc(buf.parts, []);
    buf.LinkAt(buf.last, tmp);
    buf.last := tmp;
  }

  /** The same, when what is behind chain f was all scanned. */
  method AddRoom(buf: Evbuffer, tmp: Chain, ghost f: nat, ghost gaps: seq<nat>)
    requires buf.Shape() && buf.chains != [] && tmp !in buf.chains && tmp.Ok() && tmp.off == 0 && tmp.next == null
    requires Room(buf, f, gaps) && f + |gaps| == |buf.chains|
    modifies buf`first, buf`last, buf`chains, buf`parts, buf.chains`next
    ensures buf.Shape() && buf.Contents() == old(buf.Contents())
    ensures buf.chains == old(buf.chains) + [tmp] && buf.lwi == old(buf.lwi)
    ensures Room(buf, f, gaps + [tmp.Space()])
  {
    ghost var cs := buf.chains;
    AddEmpty(buf, tmp);
    assert forall k {:trigger buf.chains[k]} :: f <= k < f + |gaps| ==> buf.chains[k] == cs[k];
    RoomMore(buf, f, gaps, gaps + [tmp.Space()]);
  }

  /** evbuffer_expand_fast_ when the scan ran off the end: one more chain for the rest. */
  method Extend(buf: Evbuffer, need: nat, ghost gaps: seq<nat>, ghost avail: nat, ghost used: nat)
    returns (ok: bool, ghost more: seq<nat>)
    requires buf.Shape() && buf.chains != [] && Room(buf, buf.lwi, gaps) && Tally(gaps, avail, used)
    requires buf.lwi + |gaps| == |buf.chains| && need > 0 && gaps != []
    modifies buf`first, buf`last, buf`chains, buf`parts, buf.chains`next
    ensures buf.Shape() && buf.Contents() == old(buf.Contents()) && buf.lwi == old(buf.lwi)
    ensures ok <==> need <= MAX_CHAIN_MEM
    ensures ok ==>
      Room(buf, buf.lwi, more) && more != [] && Tally(more, Sum(more), used + 1) && Sum(more) >= avail + need
    ensures old(buf.chains) <= buf.chains && |buf.chains| <= |old(buf.chains)| + 1
    ensures forall i :: 0 <= i < |buf.chains| ==> buf.chains[i] in old(buf.chains) || fresh(buf.chains[i])
  {
    var tmp := ChainNew(need);
    ok, more := tmp != null, [];
    if ok {
      more := gaps + [tmp.Space()];
      TallyOne(gaps, avail, used, tmp.Space());
      AddRoom(buf, tmp, buf.lwi, gaps);
    }
  }

  lemma RoomGives(buf: Evbuffer, f: nat, gaps: seq<nat>, t: nat)
    requires Room(buf, f, gaps) && t < |gaps|
    ensures buf.chains[f + t].Ok() && buf.chains[f + t].Space() == gaps[t]
  {
  }

  /** The room without its first chain. */
  lemma RoomRest(buf: Evbuffer, f: nat, gaps: seq<nat>)
    requires Room(buf, f, gaps) && gaps != []
    ensures Room(buf, f + 1, gaps[1..])
  {
  }

  lemma RoomMore(buf: Evbuffer, f: nat, gaps: seq<nat>, more: seq<nat>)
    requires Room(buf, f, gaps) && |more| == |gaps| + 1 && more[..|gaps|] == gaps && f + |gaps| < |buf.chains|
    requires buf.chains[f + |gaps|].Ok() && buf.chains[f + |gaps|].Space() == more[|gaps|]
    ensures Room(buf, f, more)
  {
    forall k | f <= k < f + |more| ensures buf.chains[k].Ok() && buf.chains[k].Space() == more[k - f] {
      if k < f + |gaps| { assert more[..|gaps|][k - f] == gaps[k - f]; }
    }
  }

  /** A chain put behind the last one with data, which is the last of all; `slot` is that
      chain, or null in a buffer without chains. */
  method AddBehindData(buf: Evbuffer, slot: Chain?, tmp: Chain)
    requires buf.Body() && slot == buf.At(|buf.chains| - 1) && (buf.chains == [] || buf.lwi == |buf.chains| - 1)
    requires tmp !in buf.chains && tmp.Ok() && tmp.off == 0 && tmp.next == null
    modifies buf`first, buf`last, buf`chains, buf`parts, buf.chains`next
    ensures buf.Shape() && buf.Contents() == old(buf.Contents()) && buf.lwi == old(buf.lwi)
    ensures buf.chains == old(buf.chains) + [tmp]
  {
    assert tmp.Data() == [];
    FlatSnoc(buf.parts, []);
    buf.LinkAt(slot, tmp);
    buf.last := tmp;
  }

  /** Frees the empty chains at the end; `avail` is the space in the chain that is the
      last one then. */
  method Nuke(buf: Evbuffer) returns (slot: Chain?, avail: nat)
    requires buf.Shape()
    modifies buf`first, buf`last, buf`chains, buf`parts, buf.chains`next
    ensures buf.Shape() && buf.Contents() == old(buf.Contents()) && buf.lwi == old(buf.lwi)
    ensures slot == buf.At(|buf.chains| - 1) && (buf.chains == [] || buf.lwi == |buf.chains| - 1)
    ensures buf.chains <= old(buf.chains)
    ensures slot == null ==> avail == 0 && buf.chains == []
    ensures slot != null ==> slot.Ok() && avail == slot.Space()
    ensures slot != null ==>
      buf.lwi < |old(buf.chains)| && slot == old(buf.chains)[buf.lwi] && old(buf.parts)[buf.lwi] != []
  {
    slot := buf.FreeTrailingEmptyChains();
    buf.last := slot;
    avail := 0;
    if slot != null {
      assert slot == buf.chains[buf.lwi] && slot.Data() == buf.parts[buf.lwi];
      avail := slot.Space();
    }
  }

  lemma OneOrTwo(a: nat, b: nat)
    requires b > 0
    ensures Tally([b], b, 1) && Tally([a, b], a + b, if a > 0 then 2 else 1)
  {
    assert [a, b][..1] == [a] && [a][..0] == [] && [b][..0] == [];
  }

  /** A new chain for what the last one cannot take. */
  method PutRoom(buf: Evbuffer, slot: Chain?, need: nat, ghost avail: nat) returns (ok: bool, ghost gaps: seq<nat>)
    requires buf.Shape() && need > 0
    requires slot == buf.At(|buf.chains| - 1) && (buf.chains == [] || buf.lwi == |buf.chains| - 1)
    requires if slot == null then avail == 0 else slot.Ok() && avail == slot.Space()
    modifies buf`first, buf`last, buf`chains, buf`parts, buf.chains`next
    ensures buf.Shape() && buf.Contents() == old(buf.Contents()) && buf.lwi == old(buf.lwi)
    ensures ok <==> need <= MAX_CHAIN_MEM
    ensures ok ==> Room(buf, buf.lwi, gaps) && gaps != [] && Sum(gaps) >= avail + need
    ensures ok ==> NonZero(gaps) <= 2 && Tally(gaps, Sum(gaps), NonZero(gaps))
    ensures |buf.chains| <= |old(buf.chains)| + 1
    ensures forall i :: 0 <= i < |buf.chains| ==> buf.chains[i] in old(buf.chains) || fresh(buf.chains[i])
  {
    var tmp := ChainNew(need);
    ok, gaps := tmp != null, [];
    if ok {
      AddBehindData(buf, slot, tmp);
      OneOrTwo(avail, tmp.Space());
      gaps := if slot == null then [tmp.Space()] else [avail, tmp.Space()];
    }
  }

  /** evbuffer_expand_fast_ when n chains were not enough: all empty chains at the end are
      replaced by one for what the last chain with data cannot take. */
  method Replace(buf: Evbuffer, datlen: nat) returns (ok: bool, ghost gaps: seq<nat>)
    requires buf.Shape() && buf.chains != [] && datlen > 0
    requires buf.parts[buf.lwi] != [] ==> buf.chains[buf.lwi].Ok() && buf.chains[buf.lwi].Space() < datlen
    modifies buf`first, buf`last, buf`chains, buf`parts, buf.chains`next
    ensures buf.Shape() && buf.Contents() == old(buf.Contents()) && buf.lwi == old(buf.lwi)
    ensures ok ==> Room(buf, buf.lwi, gaps) && gaps != [] && Sum(gaps) >= datlen
    ensures ok ==> NonZero(gaps) <= 2 && Tally(gaps, Sum(gaps), NonZero(gaps))
    ensures |buf.chains| <= |old(buf.chains)| + 1
    ensures !ok ==> datlen > MAX_CHAIN_MEM
    ensures forall i :: 0 <= i < |buf.chains| ==> buf.chains[i] in old(buf.chains) || fresh(buf.chains[i])
  {
    var slot, avail := Nuke(buf);
    ok, gaps := PutRoom(buf, slot, datlen - avail, avail);
  }

  /** evbuffer_expand_fast_, for a buffer without chains. */
  method First(buf: Evbuffer, datlen: nat) returns (ok: bool, ghost gaps: seq<nat>)
    requires buf.Shape() && buf.chains == []
    modifies buf`first, buf`last, buf`lastWithDatap, buf`totalLen, buf`chains, buf`parts, buf`lwi
    ensures buf.Shape() && buf.Contents() == old(buf.Contents()) && buf.totalLen == old(buf.totalLen)
    ensures ok <==> datlen <= MAX_CHAIN_MEM
    ensures ok ==> Room(buf, buf.lwi, gaps) && gaps != [] && Tally(gaps, Sum(gaps), 1) && Sum(gaps) >= datlen
    ensures |buf.chains| <= 1 && (ok <==> buf.chains != [])
    ensures ok ==> |buf.chains[0].mem| < 2 * (datlen + CHAIN_HEADER) + MIN_BUFFER_SIZE
    ensures forall i :: 0 <= i < |buf.chains| ==> fresh(buf.chains[i])
  {
    var tmp := ChainNew(datlen);
    ok, gaps := tmp != null, [];
    if ok {
      assert tmp.Data() == [] && tmp !in buf.chains;
      buf.ChainInsert(tmp);
      OneOrTwo(0, tmp.Space());
      gaps := [tmp.Space()];
    }
  }

  /** evbuffer_expand_fast_: afterwards `datlen` bytes fit into at most n chains, from the
      last one with data on; no byte is moved.  At most one chain is added, and none is
      freed if there are fewer than n to look at. */
  method ExpandFast(buf: Evbuffer, datlen: nat, n: nat) returns (ok: bool, ghost gaps: seq<nat>)
    requires buf.Valid() && n >= 2
    modifies buf`first, buf`last, buf`lastWithDatap, buf`totalLen, buf`chains, buf`parts, buf`lwi
    modifies buf.chains`next, buf.chains`misalign
    ensures buf.Valid() && buf.Contents() == old(buf.Contents())
    ensures ok ==> Room(buf, buf.lwi, gaps) && gaps != [] && Sum(gaps) >= datlen
    ensures ok ==> Tally(gaps, Sum(gaps), NonZero(gaps)) && NonZero(gaps) <= n
    ensures !ok ==> datlen > MAX_CHAIN_MEM
    ensures old(|buf.chains| - buf.lwi) < n ==> old(buf.chains) <= buf.chains
    ensures |buf.chains| <= |old(buf.chains)| + 1
    ensures old(buf.chains) == [] && ok ==> |buf.chains[0].mem| < 2 * (datlen + CHAIN_HEADER) + MIN_BUFFER_SIZE
    ensures forall i :: 0 <= i < |buf.chains| ==> buf.chains[i] in old(buf.chains) || fresh(buf.chains[i])
  {
    if buf.last == null {
      ok, gaps := First(buf, datlen);
    } else {
      ok, gaps := ExpandBehind(buf, datlen, n);
    }
  }

  /** The scan from the last chain with data on. */
  method Scan(buf: Evbuffer, datlen: nat, n: nat) returns (avail: nat, used: nat, ghost gaps: seq<nat>)
    requires buf.Shape() && buf.chains != [] && n >= 2
    modifies buf.chains`misalign
    ensures buf.Shape() && Room(buf, buf.lwi, gaps) && Tally(gaps, avail, used) && used <= n && gaps != []
    ensures avail >= datlen || used == n || buf.lwi + |gaps| == |buf.chains|
  {
    var chain := buf.LastWithDataChain();
    avail, used, gaps := ScanRoom(buf, chain, buf.lwi, datlen, n);
    StillShaped(buf);
  }

  /** Nothing but the misalignment of chains has changed. */
  twostate lemma StillShaped(buf: Evbuffer)
    requires old(buf.Shape()) && unchanged(buf) && buf.Linked()
    ensures buf.Shape()
  {
  }

  method ExpandBehind(buf: Evbuffer, datlen: nat, n: nat) returns (ok: bool, ghost gaps: seq<nat>)
    requires buf.Shape() && buf.chains != [] && n >= 2
    modifies buf`first, buf`last, buf`chains, buf`parts, buf.chains`next, buf.chains`misalign
    ensures buf.Shape() && buf.Contents() == old(buf.Contents())
    ensures ok ==> Room(buf, buf.lwi, gaps) && gaps != [] && Sum(gaps) >= datlen
    ensures ok ==> Tally(gaps, Sum(gaps), NonZero(gaps)) && NonZero(gaps) <= n
    ensures !ok ==> datlen > MAX_CHAIN_MEM
    ensures old(|buf.chains| - buf.lwi) < n ==> old(buf.chains) <= buf.chains
    ensures |buf.chains| <= |old(buf.chains)| + 1
    ensures forall i :: 0 <= i < |buf.chains| ==> buf.chains[i] in old(buf.chains) || fresh(buf.chains[i])
  {
    var avail, used;
    avail, used, gaps := Scan(buf, datlen, n);
    NonZeroBelow(gaps);
    ok := true;
    if avail < datlen {
      ok, gaps := Grow(buf, datlen, n, gaps, avail, used);
    }
  }

  /** The part of evbuffer_expand_fast_ behind a scan that found too little. */
  method Grow(buf: Evbuffer, datlen: nat, n: nat, ghost had: seq<nat>, avail: nat, used: nat)
    returns (ok: bool, ghost gaps: seq<nat>)
    requires buf.Shape() && buf.chains != [] && n >= 2 && avail < datlen
    requires Room(buf, buf.lwi, had) && Tally(had, avail, used) && had != []
    requires used <= n && (used < n ==> buf.lwi + |had| == |buf.chains|)
    modifies buf`first, buf`last, buf`chains, buf`parts, buf.chains`next
    ensures buf.Shape() && buf.Contents() == old(buf.Contents()) && buf.lwi == old(buf.lwi)
    ensures ok ==> Room(buf, buf.lwi, gaps) && gaps != [] && Sum(gaps) >= datlen
    ensures ok ==> Tally(gaps, Sum(gaps), NonZero(gaps)) && NonZero(gaps) <= n
    ensures !ok ==> datlen > MAX_CHAIN_MEM
    ensures used < n ==> old(buf.chains) <= buf.chains
    ensures |buf.chains| <= |old(buf.chains)| + 1
    ensures forall i :: 0 <= i < |buf.chains| ==> buf.chains[i] in old(buf.chains) || fresh(buf.chains[i])
  {
    if used < n {
      ok, gaps := Extend(buf, datlen - avail, had, avail, used);
    } else {
      FirstGap(had);
      assert buf.chains[buf.lwi + 0].Space() == had[0];
      ok, gaps := Replace(buf, datlen);
    }
  }

  // ----- where to read to

  /** An iovec: the free space of a chain, or the first part of it, from `base` on. */
  datatype Vec = Vec(chain: Chain, base: nat, len: nat)

  function Lens(vecs: seq<Vec>): nat {
    if vecs == [] then 0 else Lens(vecs[..|vecs| - 1]) + vecs[|vecs| - 1].len
  }

  lemma {:induction false} Front(gaps: seq<nat>)
    requires gaps != []
    ensures Sum(gaps) == gaps[0] + Sum(gaps[1..])
    ensures NonZero(gaps) == (if gaps[0] > 0 then 1 else 0) + NonZero(gaps[1..])
    decreases |gaps|
  {
    if |gaps| > 1 {
      var last := |gaps| - 1;
      Front(gaps[..last]);
      assert gaps[..last][1..] == gaps[1..][..last - 1];
    }
  }

  lemma {:induction false} AllCount(gaps: seq<nat>)
    requires forall t {:trigger gaps[t]} :: 0 <= t < |gaps| ==> gaps[t] > 0
    ensures NonZero(gaps) == |gaps|
    decreases |gaps|
  {
    if gaps != [] {
      var last := |gaps| - 1;
      assert forall t {:trigger gaps[..last][t]} :: 0 <= t < last ==> gaps[..last][t] == gaps[t];
      AllCount(gaps[..last]);
    }
  }

  /** The first chain with space: the last one with data, or the one behind it. */
  method FirstWithSpace(buf: Evbuffer, ghost gaps: seq<nat>, ghost n: nat)
    returns (slot: Chain?, chain: Chain?, ghost f: nat, ghost fits: seq<nat>)
    requires buf.Shape() && gaps != [] && Room(buf, buf.lwi, gaps)
    requires Tally(gaps, Sum(gaps), NonZero(gaps)) && NonZero(gaps) <= n
    ensures buf.lwi <= f && slot == buf.At(f - 1) && chain == buf.At(f)
    ensures Room(buf, f, fits) && Sum(fits) == Sum(gaps) && |fits| <= n
    ensures forall t {:trigger fits[t]} :: 0 <= t < |fits| ==> fits[t] > 0
  {
    slot, f, fits := buf.lastWithDatap, buf.lwi, gaps;
    chain := buf.LastWithDataChain();
    RoomGives(buf, f, gaps, 0);
    if chain.Space() == 0 {
      Front(gaps);
      RoomRest(buf, f, gaps);
      slot, f, fits := chain, f + 1, gaps[1..];
      chain := chain.next;
    }
    AllCount(fits);
  }

  /** The vectors are the free space of the chains from f on; the last perhaps not all of
      it, unless `all` is said. */
  ghost predicate Covers(buf: Evbuffer, f: nat, fits: seq<nat>, vecs: seq<Vec>, all: bool)
    reads buf`chains, buf.chains`misalign, buf.chains`off
  {
    && f + |vecs| <= |buf.chains| && |vecs| <= |fits|
    && (forall i {:trigger vecs[i]} :: 0 <= i < |vecs| ==>
      vecs[i].chain == buf.chains[f + i] && vecs[i].base == buf.chains[f + i].misalign + buf.chains[f + i].off
      && 0 < vecs[i].len <= fits[i])
    && (forall i {:trigger vecs[i]} :: 0 <= i < |vecs| && (all || i < |vecs| - 1) ==> vecs[i].len == fits[i])
  }

  lemma {:induction false} AllOfIt(buf: Evbuffer, f: nat, fits: seq<nat>, vecs: seq<Vec>)
    requires Covers(buf, f, fits, vecs, true)
    ensures Lens(vecs) == Sum(fits[..|vecs|])
    decreases |vecs|
  {
    if vecs != [] {
      var last := |vecs| - 1;
      assert forall i {:trigger vecs[..last][i]} :: 0 <= i < last ==> vecs[..last][i] == vecs[i];
      AllOfIt(buf, f, fits, vecs[..last]);
      SumNext(fits, last);
    }
  }

  /** How far the loop of evbuffer_read_setup_vecs_ has come: the vectors cover all the
      space of their chains while more is wanted, and `chain` comes next. */
  ghost predicate Laid(buf: Evbuffer, f: nat, fits: seq<nat>, vecs: seq<Vec>, chain: Chain?, soFar: nat, howmuch: nat,
      exact: bool)
    reads buf`chains, buf.chains`misalign, buf.chains`off
  {
    && Covers(buf, f, fits, vecs, soFar < howmuch) && chain == buf.At(f + |vecs|)
    && soFar == Lens(vecs) <= Sum(fits) && (exact ==> soFar <= howmuch)
  }

  /** One more vector: the space of the next chain, or as much of it as is wanted. */
  method OneMore(buf: Evbuffer, chain: Chain?, ghost f: nat, ghost fits: seq<nat>, vecs: seq<Vec>, soFar: nat,
      howmuch: nat, exact: bool)
    returns (more: seq<Vec>, got: nat)
    requires buf.Linked() && Room(buf, f, fits) && Laid(buf, f, fits, vecs, chain, soFar, howmuch, exact)
    requires forall t {:trigger fits[t]} :: 0 <= t < |fits| ==> fits[t] > 0
    requires soFar < howmuch <= Sum(fits)
    ensures chain != null && |more| == |vecs| + 1
    ensures Laid(buf, f, fits, more, chain.next, got, howmuch, exact)
  {
    SpaceIsLeft(buf, f, fits, vecs, chain, soFar, howmuch, exact);
    var avail := chain.Space();
    if avail > howmuch - soFar && exact {
      avail := howmuch - soFar;
    }
    var v := Vec(chain, chain.misalign + chain.off, avail);
    more, got := vecs + [v], soFar + avail;
    NextLaid(buf, f, fits, vecs, soFar, howmuch, v);
  }

  /** While more is wanted there is another chain with space. */
  lemma SpaceIsLeft(buf: Evbuffer, f: nat, fits: seq<nat>, vecs: seq<Vec>, chain: Chain?, soFar: nat, howmuch: nat,
      exact: bool)
    requires Room(buf, f, fits) && Laid(buf, f, fits, vecs, chain, soFar, howmuch, exact)
    requires soFar < howmuch <= Sum(fits)
    ensures |vecs| < |fits| && f + |vecs| < |buf.chains| && chain == buf.chains[f + |vecs|]
    ensures chain.Ok() && chain.Space() == fits[|vecs|]
  {
    AllOfIt(buf, f, fits, vecs);
    SumPrefix(fits, |vecs|);
    RoomGives(buf, f, fits, |vecs|);
  }

  lemma NextLaid(buf: Evbuffer, f: nat, fits: seq<nat>, vecs: seq<Vec>, soFar: nat, howmuch: nat, v: Vec)
    requires Covers(buf, f, fits, vecs, true) && |vecs| < |fits| && f + |vecs| < |buf.chains| && soFar == Lens(vecs)
    requires v.chain == buf.chains[f + |vecs|] && v.base == v.chain.misalign + v.chain.off
    requires 0 < v.len <= fits[|vecs|] && (soFar + v.len < howmuch ==> v.len == fits[|vecs|])
    ensures Covers(buf, f, fits, vecs + [v], soFar + v.len < howmuch)
    ensures Lens(vecs + [v]) == soFar + v.len <= Sum(fits)
  {
    AllOfIt(buf, f, fits, vecs);
    LensSnoc(vecs, v);
    SumOneMore(fits, |vecs|, v.len);
    CoversMore(buf, f, fits, vecs, v, soFar + v.len < howmuch);
  }

  lemma SumOneMore(fits: seq<nat>, k: nat, len: nat)
    requires k < |fits| && len <= fits[k]
    ensures Sum(fits[..k]) + len <= Sum(fits)
  {
    SumNext(fits, k);
    SumPrefix(fits, k + 1);
  }

  lemma CoversMore(buf: Evbuffer, f: nat, fits: seq<nat>, vecs: seq<Vec>, v: Vec, all: bool)
    requires Covers(buf, f, fits, vecs, true) && |vecs| < |fits| && f + |vecs| < |buf.chains|
    requires v.chain == buf.chains[f + |vecs|] && v.base == v.chain.misalign + v.chain.off
    requires 0 < v.len <= fits[|vecs|] && (all ==> v.len == fits[|vecs|])
    ensures Covers(buf, f, fits, vecs + [v], all)
  {
    var more, k := vecs + [v], |vecs|;
    assert more[k] == v;
    assert forall i {:trigger more[i]} :: 0 <= i < k ==> more[i] == vecs[i];
  }

  /** When there is a vector for every chain, or enough of them, they hold what is wanted. */
  lemma LaidOut(buf: Evbuffer, f: nat, fits: seq<nat>, vecs: seq<Vec>, chain: Chain?, soFar: nat, howmuch: nat,
      exact: bool)
    requires Laid(buf, f, fits, vecs, chain, soFar, howmuch, exact) && howmuch <= Sum(fits)
    requires |vecs| >= |fits| || soFar >= howmuch
    ensures Covers(buf, f, fits, vecs, false)
    ensures howmuch <= Lens(vecs) <= Sum(fits) && (exact ==> Lens(vecs) == howmuch)
  {
    SumPrefix(fits, |vecs|);
    if soFar < howmuch {
      AllOfIt(buf, f, fits, vecs);
    }
  }

  /** The loop of evbuffer_read_setup_vecs_. */
  method VecsFrom(buf: Evbuffer, first: Chain?, ghost f: nat, ghost fits: seq<nat>, howmuch: nat, nVecs: nat,
      exact: bool)
    returns (vecs: seq<Vec>)
    requires buf.Linked() && Room(buf, f, fits) && first == buf.At(f)
    requires forall t {:trigger fits[t]} :: 0 <= t < |fits| ==> fits[t] > 0
    requires |fits| <= nVecs && howmuch <= Sum(fits)
    ensures Covers(buf, f, fits, vecs, false) && |vecs| <= nVecs
    ensures howmuch <= Lens(vecs) <= Sum(fits) && (exact ==> Lens(vecs) == howmuch)
  {
    var chain := first;
    vecs := [];
    var soFar: nat := 0;
    while |vecs| < nVecs && soFar < howmuch
      invariant |vecs| <= nVecs && Laid(buf, f, fits, vecs, chain, soFar, howmuch, exact)
    {
      vecs, soFar := OneMore(buf, chain, f, fits, vecs, soFar, howmuch, exact);
      chain := chain.next;
    }
    LaidOut(buf, f, fits, vecs, chain, soFar, howmuch, exact);
  }

  /** evbuffer_read_setup_vecs_, in a buffer with enough room: the vectors lie in the free
      space of consecutive chains, and hold what is asked for, exactly if wanted. */
  method SetupVecs(buf: Evbuffer, howmuch: nat, nVecs: nat, exact: bool, ghost gaps: seq<nat>)
    returns (vecs: seq<Vec>, slot: Chain?, ghost f: nat, ghost fits: seq<nat>)
    requires buf.Shape() && gaps != [] && Room(buf, buf.lwi, gaps)
    requires Tally(gaps, Sum(gaps), NonZero(gaps)) && NonZero(gaps) <= nVecs && howmuch <= Sum(gaps)
    ensures buf.lwi <= f && slot == buf.At(f - 1) && Room(buf, f, fits)
    ensures Covers(buf, f, fits, vecs, false) && |vecs| <= nVecs
    ensures howmuch <= Lens(vecs) <= Sum(fits) && (exact ==> Lens(vecs) == howmuch)
  {
    var chain;
    slot, chain, f, fits := FirstWithSpace(buf, gaps, nVecs);
    vecs := VecsFrom(buf, chain, f, fits, howmuch, nVecs, exact);
  }

  lemma SumNext(fits: seq<nat>, k: nat)
    requires k < |fits|
    ensures Sum(fits[..k + 1]) == Sum(fits[..k]) + fits[k]
  {
    assert fits[..k + 1][..k] == fits[..k];
  }

  lemma LensSnoc(vecs: seq<Vec>, v: Vec)
    ensures Lens(vecs + [v]) == Lens(vecs) + v.len
  {
    assert (vecs + [v])[..|vecs|] == vecs;
  }

  lemma {:induction false} SumPrefix(fits: seq<nat>, k: nat)
    requires k <= |fits|
    ensures Sum(fits[..k]) <= Sum(fits) && (k == |fits| ==> fits[..k] == fits)
    decreases |fits|
  {
    if k == |fits| {
      assert fits[..k] == fits;
    } else {
      var last := |fits| - 1;
      SumPrefix(fits[..last], k);
      assert fits[..last][..k] == fits[..k];
    }
  }

  // ----- what was read

  /** The bytes lie in the free space of the chains, each filled up before the next is begun. */
  ghost predicate Written(cs: seq<Chain>, fits: seq<nat>, data: seq<Byte>)
    reads cs`mem, cs`misalign, cs`off
    decreases |fits|
  {
    data == [] || (
      && fits != [] && cs != []
      && InSpace(cs[0], data[..Min(fits[0], |data|)])
      && Written(cs[1..], fits[1..], data[Min(fits[0], |data|)..]))
  }

  /** The free space of the chain begins with these bytes. */
  ghost predicate InSpace(c: Chain, data: seq<Byte>)
    reads c`mem, c`misalign, c`off
  {
    c.misalign + c.off + |data| <= |c.mem| && c.mem[c.misalign + c.off..c.misalign + c.off + |data|] == data
  }

  /** The kernel puts bytes at the start of the free space of chain k. */
  method PutInSpace(buf: Evbuffer, c: Chain, ghost k: nat, base: nat, data: seq<Byte>)
    requires buf.Linked() && k < |buf.chains| && buf.chains[k] == c
    requires base == c.misalign + c.off && base + |data| <= |c.mem|
    modifies c`mem
    ensures buf.Linked() && |c.mem| == old(|c.mem|) && InSpace(c, data)
  {
    assert c.Ok() && c.Data() == buf.parts[k];
    SpliceOutside(c.mem, base, data, c.misalign, base);
    c.mem := Splice(c.mem, base, data);
    assert c.Data() == buf.parts[k];
  }

  lemma {:induction false} LensFront(vecs: seq<Vec>)
    requires vecs != []
    ensures Lens(vecs) == vecs[0].len + Lens(vecs[1..])
    decreases |vecs|
  {
    if |vecs| > 1 {
      var last := |vecs| - 1;
      LensFront(vecs[..last]);
      assert vecs[..last][1..] == vecs[1..][..last - 1];
    }
  }

  /** What is left to cover behind the first vector. */
  lemma CoversRest(buf: Evbuffer, f: nat, fits: seq<nat>, vecs: seq<Vec>)
    requires Covers(buf, f, fits, vecs, false) && vecs != []
    ensures Covers(buf, f + 1, fits[1..], vecs[1..], false)
  {
    var rest := vecs[1..];
    assert forall i {:trigger rest[i]} :: 0 <= i < |rest| ==> rest[i] == vecs[i + 1];
  }

  /** What is written stays so when a vector in front of it is written, and then it is all. */
  lemma WrittenFirst(buf: Evbuffer, k: nat, fits: seq<nat>, data: seq<Byte>, n: nat)
    requires data != [] && fits != [] && k < |buf.chains| && n == Min(fits[0], |data|)
    requires InSpace(buf.chains[k], data[..n]) && Written(buf.chains[k + 1..], fits[1..], data[n..])
    ensures Written(buf.chains[k..], fits, data)
  {
    assert buf.chains[k..][1..] == buf.chains[k + 1..];
  }

  /** The first vector takes as much as its chain has room for, or all, and the others have
      room for the rest. */
  lemma FirstTakes(buf: Evbuffer, f: nat, fits: seq<nat>, vecs: seq<Vec>, n: nat)
    requires Covers(buf, f, fits, vecs, false) && 0 < n <= Lens(vecs)
    ensures vecs != [] && Min(vecs[0].len, n) == Min(fits[0], n) && n - Min(vecs[0].len, n) <= Lens(vecs[1..])
    ensures vecs[0].chain == buf.chains[f] && vecs[0].base == buf.chains[f].misalign + buf.chains[f].off
  {
    LensFront(vecs);
    assert vecs[1..] == [] ==> Lens(vecs[1..]) == 0;
  }

  /** readv: the bytes are scattered over the vectors, each filled up before the next. */
  method Scatter(buf: Evbuffer, vecs: seq<Vec>, data: seq<Byte>, ghost f: nat, ghost fits: seq<nat>)
    requires buf.Linked() && Room(buf, f, fits) && Covers(buf, f, fits, vecs, false) && |data| <= Lens(vecs)
    modifies (set v | v in vecs :: v.chain)`mem
    ensures unchanged(buf)
    ensures buf.Linked() && Room(buf, f, fits) && Written(buf.chains[f..], fits, data)
    decreases |vecs|
  {
    if data != [] {
      CoversRest(buf, f, fits, vecs);
      FirstTakes(buf, f, fits, vecs, |data|);
      var v := vecs[0];
      var n := Min(v.len, |data|);
      RoomRest(buf, f, fits);
      Scatter(buf, vecs[1..], data[n..], f + 1, fits[1..]);
      PutFirst(buf, v.chain, f, fits, v.base, data, n);
    }
  }

  /** The bytes of the first vector; those of the others are in place. */
  method PutFirst(buf: Evbuffer, c: Chain, ghost k: nat, ghost fits: seq<nat>, base: nat, data: seq<Byte>, n: nat)
    requires buf.Linked() && k < |buf.chains| && buf.chains[k] == c && base == c.misalign + c.off
    requires data != [] && fits != [] && n == Min(fits[0], |data|)
    requires Room(buf, k, fits) && Written(buf.chains[k + 1..], fits[1..], data[n..])
    modifies c`mem
    ensures buf.Linked() && Room(buf, k, fits) && Written(buf.chains[k..], fits, data)
  {
    RoomGives(buf, k, fits, 0);
    assert c !in buf.chains[k + 1..];
    PutInSpace(buf, c, k, base, data[..n]);
    WrittenFirst(buf, k, fits, data, n);
  }

  /** No chain behind k holds bytes. */
  ghost predicate EmptyBehind(buf: Evbuffer, k: nat)
    reads buf`parts
  {
    forall i {:trigger buf.parts[i]} :: k < i < |buf.parts| ==> buf.parts[i] == []
  }

  /** `off` is advanced over n bytes that the kernel has put behind those of chain k. */
  method Advance(buf: Evbuffer, c: Chain, ghost k: nat, n: nat, ghost data: seq<Byte>)
    requires buf.Linked() && k < |buf.chains| && buf.chains[k] == c && EmptyBehind(buf, k)
    requires |data| == n && InSpace(c, data)
    modifies buf`parts, c`off
    ensures buf.Linked() && EmptyBehind(buf, k) && c.next == buf.At(k + 1) && c.off == old(c.off) + n
    ensures Flat(buf.parts) == old(Flat(buf.parts)) + data && buf.parts[k] == old(buf.parts[k]) + data
  {
    assert c.Ok() && c.Data() == buf.parts[k];
    FlatGrow(buf.parts, k, data);
    SliceJoin(c.mem, c.misalign, c.misalign + c.off, c.misalign + c.off + n);
    c.off := c.off + n;
    buf.parts := buf.parts[k := buf.parts[k] + data];
    assert c.Ok() && c.Data() == buf.parts[k];
  }

  /** The same, as the chains behind see it. */
  method FillOne(buf: Evbuffer, c: Chain, ghost k: nat, ghost fits: seq<nat>, n: nat, ghost rest: seq<Byte>)
    requires buf.Linked() && k < |buf.chains| && buf.chains[k] == c && EmptyBehind(buf, k)
    requires Room(buf, k, fits) && fits != [] && rest != [] && n == Min(fits[0], |rest|)
      && Written(buf.chains[k..], fits, rest)
    modifies buf`parts, c`off
    ensures buf.Linked() && EmptyBehind(buf, k) && Room(buf, k + 1, fits[1..]) && c.next == buf.At(k + 1)
    ensures Written(buf.chains[k + 1..], fits[1..], rest[n..])
    ensures Flat(buf.parts) == old(Flat(buf.parts)) + rest[..n] && buf.parts[k] == old(buf.parts[k]) + rest[..n]
  {
    ghost var cs := buf.chains[k + 1..];
    assert buf.chains[k..][1..] == cs && c !in cs;
    RoomRest(buf, k, fits);
    assert Written(cs, fits[1..], rest[n..]);
    Advance(buf, c, k, n, rest[..n]);
  }

  /** How far the loop at the end of evbuffer_read has come: `rest` is in the free space of
      the chains from `c` on, which is chain k and the one that `slot` points to. */
  ghost predicate Filling(buf: Evbuffer, slot: Chain?, c: Chain, k: nat, fits: seq<nat>, rest: seq<Byte>)
    reads buf`first, buf`chains, buf`parts, buf.chains
  {
    && buf.Linked() && k < |buf.chains| && c == buf.chains[k] && slot == buf.At(k - 1) && EmptyBehind(buf, k)
    && rest != [] && |rest| <= Sum(fits) && Room(buf, k, fits) && Written(buf.chains[k..], fits, rest)
  }

  /** There is some space in the chain at hand. */
  lemma FillingGives(buf: Evbuffer, slot: Chain?, c: Chain, k: nat, fits: seq<nat>, rest: seq<Byte>)
    requires Filling(buf, slot, c, k, fits, rest)
    ensures fits != [] && c.Ok() && c.Space() == fits[0]
  {
    RoomGives(buf, k, fits, 0);
  }

  lemma LeavesSome(fits: seq<nat>, rest: seq<Byte>, space: nat, before: seq<Byte>)
    requires fits != [] && fits[0] == space < |rest| <= Sum(fits)
    ensures |fits| > 1 && 0 < |rest[space..]| <= Sum(fits[1..]) && Min(fits[0], |rest|) == space
    ensures before + rest[..space] + rest[space..] == before + rest
  {
    Front(fits);
    assert before + rest[..space] + rest[space..] == before + (rest[..space] + rest[space..]);
    assert rest[..space] + rest[space..] == rest;
  }

  /** One round of that loop which fills a chain and leaves bytes for the next. */
  method FillWhole(buf: Evbuffer, slot: Chain?, c: Chain, ghost k: nat, ghost fits: seq<nat>, ghost rest: seq<Byte>,
      space: nat)
    returns (next: Chain)
    requires Filling(buf, slot, c, k, fits, rest) && fits != [] && fits[0] == space < |rest|
    modifies buf`parts, c`off
    ensures k + 1 < |buf.chains| && Filling(buf, c, next, k + 1, fits[1..], rest[space..])
    ensures Flat(buf.parts) + rest[space..] == old(Flat(buf.parts)) + rest
  {
    LeavesSome(fits, rest, space, Flat(buf.parts));
    FillOne(buf, c, k, fits, space, rest);
    next := c.next;
  }

  /** The rounds of that loop that fill a chain each, and go on to the next. */
  method FillMost(buf: Evbuffer, slot0: Chain?, c0: Chain, ghost f: nat, ghost fits0: seq<nat>, nVecs: nat, n: nat,
      ghost data: seq<Byte>)
    returns (slot: Chain?, c: Chain, remaining: nat, ghost k: nat, ghost fits: seq<nat>, ghost rest: seq<Byte>)
    requires Filling(buf, slot0, c0, f, fits0, data) && |fits0| == nVecs && n == |data|
    modifies buf`parts, buf.chains`off
    ensures Filling(buf, slot, c, k, fits, rest) && fits != [] && remaining == |rest| <= fits[0]
    ensures Flat(buf.parts) + rest == old(Flat(buf.parts)) + data
  {
    ghost var cs := buf.chains;
    slot, c, remaining := slot0, c0, n;
    k, fits, rest := f, fits0, data;
    FillingGives(buf, slot, c, k, fits, rest);
    var i, space := 0, c.Space();
    while i < nVecs && space < remaining
      invariant Filling(buf, slot, c, k, fits, rest) && remaining == |rest|
      invariant |fits| == nVecs - i && fits != [] && fits[0] == space
      invariant Flat(buf.parts) + rest == old(Flat(buf.parts)) + data
      decreases |buf.chains| - k
    {
      assert c in cs;
      var next := FillWhole(buf, slot, c, k, fits, rest, space);
      rest, k, fits := rest[space..], k + 1, fits[1..];
      slot, c, remaining, i := c, next, remaining - space, i + 1;
      FillingGives(buf, slot, c, k, fits, rest);
      space := c.Space();
    }
  }

  /** The loop at the end of evbuffer_read: where the kernel has put the bytes, chain after
      chain takes them in, and the last one touched becomes the last with data. */
  method Fill(buf: Evbuffer, slot0: Chain?, ghost f: nat, ghost fits0: seq<nat>, nVecs: nat, n: nat,
      ghost data: seq<Byte>)
    returns (slot: Chain?, ghost k: nat)
    requires buf.Linked() && Room(buf, f, fits0) && slot0 == buf.At(f - 1) && f < |buf.chains| && EmptyBehind(buf, f)
    requires |fits0| == nVecs && 0 < n == |data| <= Sum(fits0) && Written(buf.chains[f..], fits0, data)
    modifies buf`parts, buf.chains`off
    ensures buf.Linked() && Flat(buf.parts) == old(Flat(buf.parts)) + data
    ensures k < |buf.chains| && slot == buf.At(k - 1) && buf.parts[k] != [] && EmptyBehind(buf, k)
  {
    ghost var cs := buf.chains;
    assert slot0 != null ==> slot0 == cs[f - 1];
    var c := if slot0 == null then buf.first else slot0.next;
    var remaining;
    ghost var fits, rest;
    slot, c, remaining, k, fits, rest := FillMost(buf, slot0, c, f, fits0, nVecs, n, data);
    assert c in cs;
    FillOne(buf, c, k, fits, remaining, rest);
    assert rest[..remaining] == rest;
  }

  /** The chain the loop ended with holds the last of the data. */
  method Land(buf: Evbuffer, slot: Chain?, ghost k: nat, n: nat)
    requires buf.Linked() && k < |buf.chains| && slot == buf.At(k - 1) && buf.parts[k] != [] && EmptyBehind(buf, k)
    requires buf.totalLen + n == |buf.Contents()| <= SIZE_MAX && buf.last == buf.At(|buf.chains| - 1)
    modifies buf`lastWithDatap, buf`lwi, buf`totalLen
    ensures buf.Shape() && buf.totalLen == old(buf.totalLen) + n
  {
    buf.lastWithDatap, buf.lwi := slot, k;
    buf.totalLen := buf.totalLen + n;
  }

  /** The bytes become contents. */
  method Absorb(buf: Evbuffer, slot0: Chain?, ghost f: nat, ghost fits: seq<nat>, nVecs: nat, n: nat,
      ghost data: seq<Byte>)
    requires buf.Shape() && buf.lwi <= f && slot0 == buf.At(f - 1) && Room(buf, f, fits) && |fits| == nVecs
    requires 0 < n == |data| <= Sum(fits) && buf.totalLen + n <= SIZE_MAX && Written(buf.chains[f..], fits, data)
    modifies buf`parts, buf`lastWithDatap, buf`lwi, buf`totalLen, buf.chains`off
    ensures buf.Shape() && buf.Contents() == old(buf.Contents()) + data && buf.totalLen == old(buf.totalLen) + n
  {
    var slot;
    ghost var k;
    assert fits != [] && f < |buf.chains|;
    slot, k := Fill(buf, slot0, f, fits, nVecs, n, data);
    Land(buf, slot, k, n);
  }

  /** What evbuffer_read does once the kernel has put n bytes into the vectors. */
  method Commit(buf: Evbuffer, slot0: Chain?, ghost f: nat, ghost fits: seq<nat>, nVecs: nat, n: nat,
      ghost data: seq<Byte>)
    requires buf.Valid() && buf.lwi <= f && slot0 == buf.At(f - 1) && Room(buf, f, fits) && |fits| == nVecs
    requires 0 < n == |data| <= Sum(fits) && buf.totalLen + n <= SIZE_MAX && Written(buf.chains[f..], fits, data)
    modifies buf, buf.chains`off
    ensures buf.Valid() && buf.Contents() == old(buf.Contents()) + data && buf.chains == old(buf.chains)
    ensures buf.notices == old(buf.Telling(n, 0))
  {
    Absorb(buf, slot0, f, fits, nVecs, n, data);
    buf.Account(n, 0);
  }

  /** The answers of readv: an error, or the bytes it delivered. */
  datatype Answer = Failed | Delivered(bytes: seq<Byte>)

  const EVBUFFER_MAX_READ := 4096

  /** How much evbuffer_read asks for, when the socket says it has `readable` bytes: all of
      them, unless that is unknown or more than 4096, or the caller wants less. */
  function Amount(howmuch: int, readable: int): (n: nat)
    ensures n <= 4096 && (0 < readable <= 4096 ==> n <= readable) && (0 <= howmuch ==> n <= howmuch)
    ensures n == howmuch || n == 4096 || n == readable
    ensures n != howmuch && 0 < readable <= 4096 ==> n == readable
    ensures n == 0 ==> howmuch == 0
  {
    var most := if readable <= 0 || readable > EVBUFFER_MAX_READ then EVBUFFER_MAX_READ else readable;
    if howmuch < 0 || howmuch > most then most else howmuch
  }

  lemma {:induction false} LensBelow(buf: Evbuffer, f: nat, fits: seq<nat>, vecs: seq<Vec>)
    requires Covers(buf, f, fits, vecs, false)
    ensures Lens(vecs) <= Sum(fits[..|vecs|])
  {
    if vecs != [] {
      var last := |vecs| - 1;
      assert forall i {:trigger vecs[..last][i]} :: 0 <= i < last ==> vecs[..last][i] == vecs[i];
      AllOfIt(buf, f, fits, vecs[..last]);
      SumNext(fits, last);
    }
  }

  /** readv, and what is made of its answer. */
  method Receive(buf: Evbuffer, vecs: seq<Vec>, slot: Chain?, ghost f: nat, ghost fits: seq<nat>, bytes: seq<Byte>,
      ghost told: seq<Notice>)
    requires told == buf.Telling(|bytes|, 0)
    requires buf.Valid() && buf.lwi <= f && slot == buf.At(f - 1) && Room(buf, f, fits)
    requires Covers(buf, f, fits, vecs, false) && |bytes| <= Lens(vecs) && buf.totalLen + |bytes| <= SIZE_MAX
    modifies buf, buf.chains`mem, buf.chains`off
    ensures buf.Valid() && buf.Contents() == old(buf.Contents()) + bytes && buf.chains == old(buf.chains)
    ensures bytes == [] ==> buf.notices == old(buf.notices)
    ensures bytes != [] ==> buf.notices == told
  {
    ghost var used := fits[..|vecs|];
    LensBelow(buf, f, fits, vecs);
    CoversUsed(buf, f, fits, vecs);
    ScatterBeside(buf, vecs, bytes, f, used);
    if bytes != [] {
      Commit(buf, slot, f, used, |vecs|, |bytes|, bytes);
    }
  }

  /** Only the chains that get vectors matter. */
  lemma CoversUsed(buf: Evbuffer, f: nat, fits: seq<nat>, vecs: seq<Vec>)
    requires Covers(buf, f, fits, vecs, false) && Room(buf, f, fits)
    ensures Covers(buf, f, fits[..|vecs|], vecs, false) && Room(buf, f, fits[..|vecs|])
  {
  }

  /** Scatter writes to free space, which is no part of the buffer's contents. */
  method ScatterBeside(buf: Evbuffer, vecs: seq<Vec>, bytes: seq<Byte>, ghost f: nat, ghost fits: seq<nat>)
    requires buf.Valid() && Room(buf, f, fits) && Covers(buf, f, fits, vecs, false) && |bytes| <= Lens(vecs)
    modifies buf.chains`mem
    ensures buf.Valid() && Room(buf, f, fits) && Written(buf.chains[f..], fits, bytes)
  {
    assert forall v :: v in vecs ==> v.chain in buf.chains;
    Scatter(buf, vecs, bytes, f, fits);
    StillValid(buf);
  }

  /** Nothing but the chains' memory has changed. */
  twostate lemma StillValid(buf: Evbuffer)
    requires old(buf.Valid()) && unchanged(buf) && buf.Linked()
    ensures buf.Valid()
  {
  }

  /** What evbuffer_read does when there is room for n bytes. */
  method ReadVecs(buf: Evbuffer, n: nat, kernel: Answer, ghost gaps: seq<nat>, ghost told: seq<Notice>)
    returns (result: int)
    requires buf.Valid() && gaps != [] && Room(buf, buf.lwi, gaps) && n <= Sum(gaps)
    requires Tally(gaps, Sum(gaps), NonZero(gaps)) && NonZero(gaps) <= NUM_READ_IOVEC
    requires kernel.Delivered? ==> |kernel.bytes| <= n && buf.totalLen + |kernel.bytes| <= SIZE_MAX
    requires kernel.Delivered? ==> told == buf.Telling(|kernel.bytes|, 0)
    modifies buf, buf.chains`mem, buf.chains`off
    ensures buf.Valid() && buf.chains == old(buf.chains) && (result == -1 <==> kernel.Failed?)
    ensures result == -1 ==> buf.Contents() == old(buf.Contents())
    ensures result <= 0 ==> buf.notices == old(buf.notices)
    ensures result > 0 ==> buf.notices == told
    ensures result != -1 ==> result == |kernel.bytes| && buf.Contents() == old(buf.Contents()) + kernel.bytes
  {
    result := -1;
    var vecs, slot;
    ghost var f, fits;
    vecs, slot, f, fits := SetupVecs(buf, n, NUM_READ_IOVEC, true, gaps);
    if kernel.Delivered? {
      Receive(buf, vecs, slot, f, fits, kernel.bytes, told);
      result := |kernel.bytes|;
    }
  }

  /** evbuffer_read; `kernel` is what readv answers. */
  method Read(buf: Evbuffer, howmuch: int, readable: int, kernel: Answer) returns (result: int)
    requires buf.Valid() && buf.totalLen + Amount(howmuch, readable) <= SIZE_MAX
    requires kernel.Delivered? ==> |kernel.bytes| <= Amount(howmuch, readable)
    modifies buf, buf.chains
    ensures buf.Valid() && (result == -1 <==> kernel.Failed?)
    ensures result == -1 ==> buf.Contents() == old(buf.Contents())
    // the callbacks are told of what has come, and of nothing else
    ensures result <= 0 ==> buf.notices == old(buf.notices)
    ensures result > 0 ==> buf.notices == old(buf.Telling(|kernel.bytes|, 0))
    ensures result != -1 ==> result == |kernel.bytes| && buf.Contents() == old(buf.Contents()) + kernel.bytes
    // four chains are tried before one is freed
    ensures old(|buf.chains| - buf.lwi) < 4 ==> old(buf.chains) <= buf.chains
    ensures forall i :: 0 <= i < |buf.chains| ==> buf.chains[i] in old(buf.chains) || fresh(buf.chains[i])
  {
    ghost var told := if kernel.Delivered? then buf.Telling(|kernel.bytes|, 0) else [];
    result := -1;
    var n := Amount(howmuch, readable);
    var ok;
    ghost var gaps;
    ok, gaps := ExpandFast(buf, n, NUM_READ_IOVEC);
    if ok {
      result := ReadVecs(buf, n, kernel, gaps, told);
    }
  }
}
