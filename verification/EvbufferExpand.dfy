/** Making room at the end of a buffer. */
module EvbufferExpand {
  import opened Bytes
  import opened Evbuffers
  import opened EvbufferMove

  const MAX_TO_COPY_IN_EXPAND: nat := 4096

  /** Put `tmp`, holding the same bytes, in the place of chain i; `slot` is the pointer
      to chain i. */
  method ReplaceChain(buf: Evbuffer, slot: Chain?, c: Chain, tmp: Chain, ghost i: nat)
    requires buf.Linked() && i < |buf.chains| && c == buf.chains[i] && slot == buf.At(i - 1)
    requires tmp !in buf.chains && tmp.Ok() && tmp.Data() == buf.parts[i]
    modifies buf`first, buf`chains, buf.chains`next, tmp`next
    ensures buf.Linked() && buf.chains == old(buf.chains)[i := tmp]
  {
    ghost var cs := buf.chains;
    assert slot != null ==> slot in cs;
    tmp.next := c.next;
    if slot == null { buf.first := tmp; } else { slot.next := tmp; }
    buf.chains := cs[i := tmp];
    forall j | 0 <= j < |buf.chains|
      ensures buf.chains[j].Ok() && buf.chains[j].Data() == buf.parts[j] && buf.chains[j].next == buf.At(j + 1)
    {
      if j != i { assert cs[j].Data() == buf.parts[j] && (j != i - 1 ==> cs[j].next == old(cs[j].next)); }
    }
  }

  /** evbuffer_chain_insert_new: an empty chain at the end. */
  method InsertNew(buf: Evbuffer, datlen: nat) returns (c: Chain?, ghost i: nat)
    requires buf.Shape()
    modifies buf`first, buf`last, buf`lastWithDatap, buf`totalLen, buf`chains, buf`parts, buf`lwi, buf.chains`next
    ensures buf.Shape() && buf.Contents() == old(buf.Contents()) && buf.totalLen == old(buf.totalLen)
    ensures c == null <==> datlen > MAX_CHAIN_MEM
    ensures c != null ==> c == buf.At(i) && c.Ok() && buf.lwi <= i && c.Space() >= datlen
    ensures c != null ==> buf.parts == old(buf.parts[..TrimLen(buf.parts, buf.lwi)]) + [[]]
    ensures c != null ==> fresh(c) && buf.chains == old(buf.chains[..TrimLen(buf.parts, buf.lwi)]) + [c]
    ensures forall k :: 0 <= k < |buf.chains| ==> buf.chains[k] in old(buf.chains) || fresh(buf.chains[k])
  {
    c := ChainNew(datlen);
    if c != null {
      buf.ChainInsert(c);
      i := |buf.chains| - 1;
    } else {
      i := 0;
    }
  }

  /** A chain with the bytes of `c` and room for `datlen` more. */
  method CopyWithRoom(c: Chain, datlen: nat) returns (tmp: Chain?)
    requires c.Ok()
    ensures tmp == null <==> c.off + datlen > MAX_CHAIN_MEM
    ensures tmp != null ==> fresh(tmp) && tmp.Ok() && tmp.Data() == c.Data() && tmp.Space() >= datlen
  {
    tmp := ChainNew(c.off + datlen);
    if tmp != null {
      tmp.WriteBehind(c.Slice(0, c.off));
    }
  }

  /** A larger chain takes the place of the last chain with data. */
  method Resize(buf: Evbuffer, c: Chain, datlen: nat) returns (tmp: Chain?)
    requires buf.Shape() && c == buf.At(buf.lwi) && c.Ok()
    modifies buf`first, buf`last, buf`chains, buf.chains`next
    ensures buf.Shape() && buf.Contents() == old(buf.Contents()) && buf.totalLen == old(buf.totalLen)
    ensures tmp == null <==> c.off + datlen > MAX_CHAIN_MEM
    ensures tmp != null ==> tmp == buf.At(buf.lwi) && tmp.Ok() && tmp.Space() >= datlen
    ensures tmp != null ==> fresh(tmp) && c !in buf.chains
    ensures forall k :: 0 <= k < |buf.chains| ==> buf.chains[k] in old(buf.chains) || fresh(buf.chains[k])
  {
    assert c.Data() == buf.parts[buf.lwi];
    tmp := CopyWithRoom(c, datlen);
    if tmp != null {
      ReplaceChain(buf, buf.lastWithDatap, c, tmp, buf.lwi);
      if buf.last == c {
        buf.last := tmp;
      }
    }
  }

  /** Whether making a larger copy of `c` costs too much or wins too little. */
  predicate NotWorthResizing(c: Chain, datlen: nat)
    requires c.Ok()
    reads c`mem, c`misalign, c`off
  {
    c.Space() < |c.mem| / 8 || c.off > MAX_TO_COPY_IN_EXPAND || datlen >= CHAIN_MAX - c.off
  }

  /** The last chain with data has some room, but not for `datlen` bytes: realign it,
      go to the next chain or a new one, or replace it. */
  method MakeRoom(buf: Evbuffer, c: Chain, datlen: nat) returns (r: Chain?, ghost i: nat)
    requires buf.Shape() && c == buf.At(buf.lwi) && c.Ok()
    modifies buf`first, buf`last, buf`lastWithDatap, buf`totalLen, buf`chains, buf`parts, buf`lwi, buf.chains
    ensures buf.Shape() && buf.Contents() == old(buf.Contents()) && buf.totalLen == old(buf.totalLen)
    ensures r == null ==> datlen + old(c.off) > MAX_CHAIN_MEM
    ensures r != null ==> r == buf.At(i) && r.Ok() && buf.lwi <= i && r.Space() >= datlen
    // its bytes are moved to its start if they are at most 2048 and less than half of it, and
    // that makes the room
    ensures r != null && old(c.off) > 0 ==>
      (r == c <==> old(|c.mem| - c.off >= datlen && c.off < |c.mem| / 2 && c.off <= 2048))
    // otherwise it is left as it is, unless an eighth of it would be lost and its bytes, at most
    // 4096, can be copied to a larger one
    ensures r != null && old(c.off) > 0 && r != c ==>
      (c in buf.chains <==> old(c.Space() < |c.mem| / 8 || c.off > 4096 || datlen >= CHAIN_MAX - c.off))
    ensures forall k :: 0 <= k < |buf.chains| ==> buf.chains[k] in old(buf.chains) || fresh(buf.chains[k])
  {
    i := buf.lwi;
    assert c.Data() == buf.parts[i];
    if c.ShouldRealign(datlen) {
      buf.AlignAt(c, buf.lwi);
      r := c;
    } else if NotWorthResizing(c, datlen) {
      r, i := NextOrNew(buf, c, datlen);
    } else {
      r := Resize(buf, c, datlen);
    }
  }

  /** The chain behind the last one with data, if it has the room, or a new chain. */
  method NextOrNew(buf: Evbuffer, c: Chain, datlen: nat) returns (r: Chain?, ghost i: nat)
    requires buf.Shape() && c == buf.At(buf.lwi)
    modifies buf`first, buf`last, buf`lastWithDatap, buf`totalLen, buf`chains, buf`parts, buf`lwi, buf.chains`next
    ensures buf.Shape() && buf.Contents() == old(buf.Contents()) && buf.totalLen == old(buf.totalLen)
    ensures r == null ==> datlen > MAX_CHAIN_MEM
    ensures r != null ==> r == buf.At(i) && r.Ok() && buf.lwi <= i && r.Space() >= datlen
    ensures r != null && old(buf.parts[buf.lwi]) != [] ==> c in buf.chains && r != c
    ensures forall k :: 0 <= k < |buf.chains| ==> buf.chains[k] in old(buf.chains) || fresh(buf.chains[k])
  {
    r, i := c.next, buf.lwi + 1;
    assert r != null ==> buf.chains[i].Data() == buf.parts[i];
    if r == null || r.Space() < datlen {
      r, i := InsertNew(buf, datlen);
    }
  }

  /** The last chain with data, or the first of all, has no room, but the one behind it has. */
  ghost predicate NextHasRoom(buf: Evbuffer, datlen: nat)
    reads buf`chains, buf`lwi, buf.chains
  {
    && buf.lwi + 1 < |buf.chains|
    && buf.chains[buf.lwi].Ok() && buf.chains[buf.lwi].Space() == 0
    && buf.chains[buf.lwi + 1].Ok() && buf.chains[buf.lwi + 1].Space() >= datlen
  }

  /** The last chain with data, or the one behind it if that has no room. */
  method FirstWritable(buf: Evbuffer) returns (r: Chain?, ghost i: nat)
    requires buf.Shape()
    ensures r == buf.At(i) && buf.lwi <= i && (r != null ==> r.Ok() && r.off == |buf.parts[i]|)
    ensures r != null && r.off != 0 ==> i == buf.lwi
    ensures buf.lwi + 1 < |buf.chains| && buf.chains[buf.lwi].Ok() && buf.chains[buf.lwi].Space() == 0 ==>
      i == buf.lwi + 1
  {
    r := buf.LastWithDataChain();
    i := buf.lwi;
    assert r != null ==> buf.chains[i].Data() == buf.parts[i];
    if r != null && r.Space() == 0 {
      r, i := r.next, i + 1;
      assert r != null ==> buf.chains[i].Data() == buf.parts[i];
    }
  }

  /** evbuffer_expand_singlechain: the first chain from lastWithDatap on with room is
      used, realigned, replaced or passed over. */
  method ExpandSinglechain(buf: Evbuffer, datlen: nat) returns (r: Chain?, ghost i: nat)
    requires buf.Valid()
    modifies buf`first, buf`last, buf`lastWithDatap, buf`totalLen, buf`chains, buf`parts, buf`lwi, buf.chains
    ensures buf.Valid() && buf.Contents() == old(buf.Contents())
    ensures r == null ==> datlen + buf.totalLen > MAX_CHAIN_MEM
    ensures r != null ==> r == buf.At(i) && r.Ok() && buf.lwi <= i && r.Space() >= datlen
    ensures old(NextHasRoom(buf, datlen)) ==>
      i == buf.lwi + 1 && unchanged(buf) && forall c :: c in old(buf.chains) ==> unchanged(c)
    ensures forall k :: 0 <= k < |buf.chains| ==> buf.chains[k] in old(buf.chains) || fresh(buf.chains[k])
  {
    r, i := FirstWritable(buf);
    if r != null && r.Space() >= datlen {
    } else if r == null || r.off == 0 {
      r, i := InsertNew(buf, datlen);
    } else {
      assert r.off == |buf.parts[i]| <= buf.totalLen by { RunBytes(buf.parts, i); }
      r, i := MakeRoom(buf, r, datlen);
    }
  }

  /** evbuffer_commit_space for one vector in the last chain, which the caller has filled with
      `data`.  The pointer to the last chain with data is right again if and only if no
      empty chain has been passed over that is not the first one looked at. */
  method CommitLast(buf: Evbuffer, c: Chain, data: seq<Byte>)
    requires buf.Valid() && buf.chains != [] && c == buf.At(|buf.chains| - 1) && c.Ok()
    requires |data| <= c.Space() && buf.totalLen + |data| <= SIZE_MAX
    modifies buf, c`mem, c`off
    ensures buf.Linked() && buf.chains == old(buf.chains) && buf.Contents() == old(buf.Contents()) + data
    ensures var last := |buf.chains| - 1; buf.parts == old(buf.parts)[last := old(buf.parts)[last] + data]
    ensures buf.Valid() <==> data == [] || |buf.chains| <= old(buf.lwi) + 2
    ensures buf.notices == old(buf.Telling(|data|, 0))
  {
    FillLast(buf, c, data);
    buf.totalLen, buf.nAdd := buf.totalLen + |data|, buf.nAdd + |data|;
    buf.InvokeCallbacks();
  }

  /** The same, up to the accounts. */
  method FillLast(buf: Evbuffer, c: Chain, data: seq<Byte>)
    requires buf.Shape() && buf.chains != [] && c == buf.At(|buf.chains| - 1) && c.Ok() && |data| <= c.Space()
    modifies buf`parts, buf`lastWithDatap, buf`lwi, c`mem, c`off
    ensures buf.Linked() && buf.Contents() == old(buf.Contents()) + data
    ensures var last := |buf.chains| - 1; buf.parts == old(buf.parts)[last := old(buf.parts)[last] + data]
    ensures buf.LastWithData() <==> data == [] || |buf.chains| <= old(buf.lwi) + 2
  {
    ghost var last, parts := |buf.chains| - 1, buf.parts;
    RoomIsBehind(parts, buf.lwi, last, data);
    buf.WriteTail(c, last, data);
    if data != [] {
      AdvanceLastWithData(buf);
      AdvancesToEnd(parts, old(buf.lwi), data);
    } else {
      assert parts[last] + [] == parts[last];
    }
  }

  lemma AdvancesToEnd(parts: seq<seq<Byte>>, lwi: nat, data: seq<Byte>)
    requires parts != [] && IsLastWithData(parts, lwi) && data != []
    ensures var last := |parts| - 1;
      var more := parts[last := parts[last] + data];
      IsLastWithData(more, AdvanceFrom(more, lwi)) <==> last <= lwi + 1
  {
    var last := |parts| - 1;
    var more := parts[last := parts[last] + data];
    if last > lwi + 1 {
      assert more[lwi + 1] == [] && more[last] != [];
    }
  }

  /** Bytes written into the room found are appended to the whole. */
  lemma RoomIsBehind(parts: seq<seq<Byte>>, lwi: nat, i: nat, data: seq<Byte>)
    requires IsLastWithData(parts, lwi) && lwi <= i < |parts|
    ensures Flat(parts[i := parts[i] + data]) == Flat(parts) + data
  {
    FlatGrow(parts, i, data);
  }
}
