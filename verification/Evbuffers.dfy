/** The chained byte queue of libevent: chains, the buffer record, and the
    operations every other one is built from. */
module Evbuffers {
  import opened Bytes

  const SIZE_MAX: nat := 0xffff_ffff_ffff_ffff
  const CHAIN_MAX: nat := 0x7fff_ffff_ffff_ffff
  const CHAIN_HEADER: nat := 48
  const MIN_BUFFER_SIZE: nat := 1024
  const MAX_CHAIN_MEM: nat := CHAIN_MAX - CHAIN_HEADER
  const CHAIN_MAX_AUTO_SIZE: nat := 4096
  const MAX_TO_REALIGN_IN_EXPAND: nat := 2048

  /** What the buffer's callbacks are told about one change. */
  datatype Notice = Notice(origSize: nat, added: nat, deleted: nat)

  /** The size the buffer had after the last notice. */
  function EndOf(ns: seq<Notice>): int {
    if ns == [] then 0
    else var n := ns[|ns| - 1]; n.origSize + n.added - n.deleted
  }

  /** Every notice starts from the size the one before ended with. */
  ghost predicate Accurate(ns: seq<Notice>) {
    ns != [] ==>
      && ns[|ns| - 1].origSize == EndOf(ns[..|ns| - 1])
      && EndOf(ns) >= 0
      && Accurate(ns[..|ns| - 1])
  }

  /** The notice of one change, if there is anything to tell and somebody to be told. */
  function Noted(watched: bool, size: nat, added: nat, deleted: nat): seq<Notice> {
    if watched && (added != 0 || deleted != 0) then [Notice(size, added, deleted)] else []
  }

  /** `s` with the bytes from `at` on replaced by `data`: a memcpy into `s`. */
  function Splice<T>(s: seq<T>, at: nat, data: seq<T>): (r: seq<T>)
    requires at + |data| <= |s|
    ensures |r| == |s| && r[at..at + |data|] == data
    ensures r[..at] == s[..at] && r[at + |data|..] == s[at + |data|..]
  {
    s[..at] + data + s[at + |data|..]
  }

  /** Outside the bytes replaced nothing changes. */
  lemma SpliceOutside<T>(s: seq<T>, at: nat, data: seq<T>, i: nat, j: nat)
    requires at + |data| <= |s| && i <= j <= |s| && (j <= at || at + |data| <= i)
    ensures Splice(s, at, data)[i..j] == s[i..j]
  {
    var r := Splice(s, at, data);
    if j <= at {
      assert r[i..j] == r[..at][i..j] && s[i..j] == s[..at][i..j];
    } else {
      var m := at + |data|;
      assert r[i..j] == r[m..][i - m..j - m] && s[i..j] == s[m..][i - m..j - m];
    }
  }

  /** Run k is the last one holding bytes; k is 0 when all runs are empty. */
  ghost predicate IsLastWithData(parts: seq<seq<Byte>>, k: nat) {
    && (if parts == [] then k == 0 else k < |parts|)
    && (k != 0 ==> parts[k] != [])
    && forall i :: k < i < |parts| ==> parts[i] == []
  }

  /** No run before the last one holding bytes is empty. */
  ghost predicate Gapless(parts: seq<seq<Byte>>, k: nat) {
    forall i :: 0 <= i < k && i < |parts| ==> parts[i] != []
  }

  /** How many runs stay when the empty ones at the end are dropped. */
  ghost function TrimLen(parts: seq<seq<Byte>>, k: nat): (n: nat)
    requires IsLastWithData(parts, k)
    ensures n <= |parts|
  {
    if parts == [] || parts[k] == [] then 0 else k + 1
  }

  lemma Trimmed(parts: seq<seq<Byte>>, k: nat)
    requires IsLastWithData(parts, k)
    ensures AllEmpty(parts[TrimLen(parts, k)..])
    ensures IsLastWithData(parts[..TrimLen(parts, k)], k)
    ensures Flat(parts[..TrimLen(parts, k)]) == Flat(parts)
  {
    FlatTrim(parts, TrimLen(parts, k));
  }

  /** A run put in place of the dropped ones. */
  lemma TrimInsert(parts: seq<seq<Byte>>, k: nat, p: seq<Byte>)
    requires IsLastWithData(parts, k)
    ensures var n := TrimLen(parts, k);
            && Flat(parts[..n] + [p]) == Flat(parts) + p
            && IsLastWithData(parts[..n] + [p], if p != [] then n else k)
  {
    Trimmed(parts, k);
    FlatSnoc(parts[..TrimLen(parts, k)], p);
  }

  class Chain {
    var next: Chain?
    var mem: seq<Byte>
    var misalign: nat
    var off: nat

    constructor (mem: seq<Byte>)
      ensures this.next == null && this.mem == mem && misalign == 0 && off == 0
    {
      this.next, this.mem, misalign, off := null, mem, 0, 0;
    }

    ghost predicate Ok()
      reads this`mem, this`misalign, this`off
    {
      0 < |mem| <= MAX_CHAIN_MEM && misalign + off <= |mem|
    }

    /** The bytes this chain holds. */
    ghost function Data(): seq<Byte>
      reads this`mem, this`misalign, this`off
    {
      if misalign + off <= |mem| then mem[misalign..misalign + off] else []
    }

    /** The bytes held from the i-th up to the j-th. */
    function Slice(i: nat, j: nat): (s: seq<Byte>)
      requires Ok() && i <= j <= off
      reads this`mem, this`misalign, this`off
      ensures s == Data()[i..j]
    {
      SliceSlice(mem, misalign, misalign + off, i, j);
      mem[misalign + i..misalign + j]
    }

    /** Write `data` behind the bytes held. */
    method WriteBehind(data: seq<Byte>)
      requires Ok() && misalign + off + |data| <= |mem|
      modifies this`mem, this`off
      ensures Ok() && Data() == old(Data()) + data
      ensures |mem| == old(|mem|) && off == old(off) + |data|
    {
      SpliceOutside(mem, misalign + off, data, misalign, misalign + off);
      mem := Splice(mem, misalign + off, data);
      SliceJoin(mem, misalign, misalign + off, misalign + off + |data|);
      off := off + |data|;
    }

    /** Write `data` in front of the bytes held. */
    method WriteBefore(data: seq<Byte>)
      requires Ok() && |data| <= misalign
      modifies this`mem, this`off, this`misalign
      ensures Ok() && Data() == data + old(Data())
      ensures |mem| == old(|mem|) && off == old(off) + |data| && misalign == old(misalign) - |data|
    {
      SpliceOutside(mem, misalign - |data|, data, misalign, misalign + off);
      mem := Splice(mem, misalign - |data|, data);
      SliceJoin(mem, misalign - |data|, misalign, misalign + off);
      off := off + |data|;
      misalign := misalign - |data|;
    }

    /** evbuffer_chain_align: move the bytes to the start of the memory. */
    method Align()
      requires Ok()
      modifies this`mem, this`misalign
      ensures Ok() && Data() == old(Data()) && misalign == 0
      ensures |mem| == old(|mem|)
    {
      mem := Splice(mem, 0, mem[misalign..misalign + off]);
      misalign := 0;
    }

    /** evbuffer_chain_should_realign. */
    predicate ShouldRealign(datlen: nat)
      reads this`mem, this`misalign, this`off
    {
      |mem| - off >= datlen && off < |mem| / 2 && off <= MAX_TO_REALIGN_IN_EXPAND
    }

    /** CHAIN_SPACE_LEN: room after the data. */
    function Space(): (n: nat)
      requires misalign + off <= |mem|
      reads this`mem, this`misalign, this`off
    {
      |mem| - (misalign + off)
    }
  }

  /** 1024, 2048, and so on. */
  predicate Rounded(n: nat) {
    n == 1024 || (n > 1024 && n % 2 == 0 && Rounded(n / 2))
  }

  /** evbuffer_chain_new: an empty chain of at least `size` bytes, rounded up to a
      power of two less the header. */
  method ChainNew(size: nat) returns (c: Chain?)
    ensures c == null <==> size > MAX_CHAIN_MEM
    ensures c != null ==> fresh(c) && c.Ok() && c.next == null && c.off == c.misalign == 0
    ensures c != null ==> size <= |c.mem| && (|c.mem| <= MIN_BUFFER_SIZE || |c.mem| < 2 * (size + CHAIN_HEADER))
    ensures c != null && size + 48 < CHAIN_MAX / 2 ==> Rounded(|c.mem| + 48)
    ensures c != null && |c.mem| + 48 > 1024 ==> |c.mem| + 48 < 2 * (size + 48)
  {
    if size > MAX_CHAIN_MEM {
      return null;
    }
    var need := size + CHAIN_HEADER;
    var toAlloc := need;
    if need < CHAIN_MAX / 2 {
      toAlloc := MIN_BUFFER_SIZE;
      while toAlloc < need
        invariant toAlloc == MIN_BUFFER_SIZE || toAlloc < 2 * need
        invariant MIN_BUFFER_SIZE <= toAlloc && Rounded(toAlloc)
        decreases need - toAlloc
      {
        toAlloc := 2 * toAlloc;
      }
    }
    c := new Chain(seq(toAlloc - CHAIN_HEADER, _ => 0));
  }

  ghost predicate NoDup(cs: seq<Chain>) {
    forall i, j :: 0 <= i < j < |cs| ==> cs[i] != cs[j]
  }

  /** A list of chains: linked in this order, without repetition, each in bounds,
      holding these runs of bytes. */
  ghost predicate Chained(cs: seq<Chain>, parts: seq<seq<Byte>>)
    reads cs
  {
    && NoDup(cs)
    && |parts| == |cs|
    && (forall i {:trigger cs[i].Data()} {:trigger cs[i].Ok()} :: 0 <= i < |cs| ==>
      cs[i].Ok() && cs[i].Data() == parts[i])
    && (forall i {:trigger cs[i].next} :: 0 <= i < |cs| ==> cs[i].next == if i + 1 < |cs| then cs[i + 1] else null)
  }

  /** A position in a buffer: its offset, the chain it lies in, and where there. */
  datatype Ptr = Ptr(pos: int, chain: Chain?, inChain: nat)

  const NOT_FOUND := Ptr(-1, null, 0)

  /** The buffer.  `lastWithDatap` is a pointer to a `next` pointer; it is kept as
      the chain owning that pointer, with null for the buffer's own `first`. */
  class Evbuffer {
    var first: Chain?
    var last: Chain?
    var lastWithDatap: Chain?
    var totalLen: nat
    var nAdd: nat
    var nDel: nat
    var notices: seq<Notice>
    const watched: bool

    ghost var chains: seq<Chain>
    ghost var parts: seq<seq<Byte>>
    ghost var lwi: nat     // position of the chain *lastWithDatap names
    ghost var seen: nat    // the size at the last time the callbacks ran

    ghost function At(i: int): Chain?
      reads this`chains
    {
      if 0 <= i < |chains| then chains[i] else null
    }

    /** The flattened bytes. */
    ghost function Contents(): seq<Byte>
      reads this`parts
    {
      Flat(parts)
    }

    ghost predicate Linked()
      reads this`first, this`chains, this`parts, chains
    {
      first == At(0) && Chained(chains, parts)
    }

    /** lastWithDatap names the last chain holding data, or the first chain. */
    ghost predicate LastWithData()
      reads this`lastWithDatap, this`chains, this`parts, this`lwi
    {
      && |parts| == |chains|
      && lastWithDatap == At(lwi - 1)
      && IsLastWithData(parts, lwi)
    }

    /** Everything but the `last` pointer. */
    ghost predicate Body()
      reads this`first, this`chains, this`parts, this`lastWithDatap, this`lwi, this`totalLen, chains
    {
      && Linked()
      && LastWithData()
      && totalLen == |Contents()| <= SIZE_MAX
    }

    /** The counters, with `add` and `del` bytes still to be noted. */
    ghost predicate Owes(add: nat, del: nat)
      reads this`totalLen, this`nAdd, this`nDel, this`seen, this`notices
    {
      && seen + nAdd + add == totalLen + nDel + del
      && (watched ==> Accurate(notices) && EndOf(notices) == seen)
    }

    /** Everything but the counters. */
    ghost predicate Shape()
      reads this`first, this`last, this`chains, this`parts, this`lastWithDatap, this`lwi, this`totalLen, chains
    {
      Body() && last == At(|chains| - 1)
    }

    ghost predicate Valid()
      reads this, chains
    {
      Shape() && Owes(0, 0)
    }

    /** `p` lies in chain k, or just behind the last chain. */
    ghost predicate Points(p: Ptr, k: nat)
      reads this`chains, this`parts
    {
      && k <= |chains| == |parts|
      && p.chain == At(k)
      && p.inChain <= (if k < |parts| then |parts[k]| else 0)
      && p.pos == Before(parts, k) + p.inChain
    }

    constructor (watched: bool)
      ensures Valid() && Contents() == [] && chains == [] && this.watched == watched
    {
      first, last, lastWithDatap := null, null, null;
      totalLen, nAdd, nDel, notices := 0, 0, 0, [];
      this.watched := watched;
      chains, parts, lwi, seen := [], [], 0, 0;
    }

    /** The chain *lastWithDatap. */
    method LastWithDataChain() returns (c: Chain?)
      requires Linked() && LastWithData()
      ensures c == At(lwi)
    {
      if lastWithDatap == null { c := first; } else { c := lastWithDatap.next; }
    }

    /** The notices once the callbacks are told, in one more, of that many bytes beside those
        still to be told of, against the size that they know. */
    ghost function Telling(add: nat, del: nat): seq<Notice>
      reads this`notices, this`nAdd, this`nDel, this`seen
    {
      notices + Noted(watched, seen, nAdd + add, nDel + del)
    }

    /** evbuffer_invoke_callbacks_, for callbacks that are not deferred. */
    method InvokeCallbacks()
      requires Owes(0, 0)
      modifies this`nAdd, this`nDel, this`notices, this`seen
      ensures nAdd == 0 && nDel == 0 && Owes(0, 0) && notices == old(Telling(0, 0))
    {
      if watched && !(nAdd == 0 && nDel == 0) {
        ghost var was := notices;
        notices := notices + [Notice(totalLen + nDel - nAdd, nAdd, nDel)];
        assert notices[..|notices| - 1] == was;
      }
      seen, nAdd, nDel := totalLen, 0, 0;
    }

    /** Note bytes added and deleted, and tell the callbacks. */
    method Account(add: nat, del: nat)
      requires Owes(add, del)
      modifies this`nAdd, this`nDel, this`notices, this`seen
      ensures nAdd == 0 && nDel == 0 && Owes(0, 0) && notices == old(Telling(add, del))
    {
      nAdd, nDel := nAdd + add, nDel + del;
      InvokeCallbacks();
    }

    /** The pointer to the first empty chain from *lastWithDatap on. */
    method FirstVictim() returns (slot: Chain?)
      requires Body()
      ensures slot == At(TrimLen(parts, lwi) - 1)
      ensures AllEmpty(parts[TrimLen(parts, lwi)..])
    {
      slot := lastWithDatap;
      var ch := LastWithDataChain();
      ghost var i := lwi;
      while ch != null && ch.off != 0
        invariant lwi <= i <= lwi + 1 && i <= |chains|
        invariant slot == At(i - 1) && ch == At(i)
        invariant lwi < i ==> parts[lwi] != []
        decreases |chains| - i
      {
        assert chains[i].Data() == parts[i] && parts[i] != [];
        slot := ch;
        ch := ch.next;
        i := i + 1;
      }
      if i < |chains| { assert chains[i].Data() == parts[i] == []; }
    }

    /** Cut the chain list at `slot`. */
    method CutAt(slot: Chain?, ghost n: nat)
      requires Linked() && n <= |chains| && slot == At(n - 1)
      modifies this`first, this`chains, this`parts, chains`next
      ensures Linked() && chains == old(chains)[..n] && parts == old(parts)[..n]
    {
      if slot == null { first := null; } else { slot.next := null; }
      chains, parts := chains[..n], parts[..n];
    }

    /** Free the empty chains after the data; return where the next one goes. */
    method FreeTrailingEmptyChains() returns (slot: Chain?)
      requires Body()
      modifies this`first, this`chains, this`parts, chains`next
      ensures Body()
      ensures chains == old(chains)[..old(TrimLen(parts, lwi))] && parts == old(parts)[..old(TrimLen(parts, lwi))]
      ensures Contents() == old(Contents())
      ensures slot == At(|chains| - 1)
    {
      slot := FirstVictim();
      Trimmed(parts, lwi);
      CutAt(slot, TrimLen(parts, lwi));
    }

    /** Put chain `c` at the end of the list, whose last pointer is `slot`. */
    method LinkAt(slot: Chain?, c: Chain)
      requires Linked() && slot == At(|chains| - 1)
      requires c !in chains && c.Ok() && c.next == null
      modifies this`first, this`chains, this`parts, chains`next
      ensures Linked() && chains == old(chains) + [c] && parts == old(parts) + [old(c.Data())]
    {
      if slot == null { first := c; } else { slot.next := c; }
      chains, parts := chains + [c], parts + [c.Data()];
    }

    /** Put `c` behind the last chain of a buffer with no empty chains at the end. */
    method Attach(slot: Chain?, c: Chain)
      requires Body() && slot == At(|chains| - 1) && TrimLen(parts, lwi) == |chains|
      requires c !in chains && c.Ok() && c.next == null && totalLen + c.off <= SIZE_MAX
      modifies this`first, this`last, this`lastWithDatap, this`totalLen, this`chains, this`parts, this`lwi, chains`next
      ensures Body() && last == c
      ensures chains == old(chains) + [c] && parts == old(parts) + [c.Data()]
      ensures Contents() == old(Contents()) + c.Data()
      ensures old(Gapless(parts, lwi)) ==> Gapless(parts, lwi)
    {
      assert parts[..|chains|] == parts;
      TrimInsert(parts, lwi, c.Data());
      if c.off > 0 {
        lastWithDatap, lwi := slot, |chains|;
      }
      last := c;
      totalLen := totalLen + c.off;
      LinkAt(slot, c);
    }

    /** evbuffer_chain_insert: `c` becomes the last chain, in place of any empty
        chains after the data. */
    method ChainInsert(c: Chain)
      requires Body() && c !in chains && c.Ok() && c.next == null && totalLen + c.off <= SIZE_MAX
      modifies this`first, this`last, this`lastWithDatap, this`totalLen, this`chains, this`parts, this`lwi, chains`next
      ensures Body() && last == c
      ensures chains == old(chains)[..old(TrimLen(parts, lwi))] + [c]
      ensures parts == old(parts)[..old(TrimLen(parts, lwi))] + [c.Data()]
      ensures Contents() == old(Contents()) + c.Data()
      ensures old(Gapless(parts, lwi)) ==> Gapless(parts, lwi)
    {
      var slot := FreeTrailingEmptyChains();
      Attach(slot, c);
    }

    /** Write `data` behind the bytes of chain i. */
    method WriteTail(c: Chain, ghost i: nat, data: seq<Byte>)
      requires Linked() && i < |chains| && chains[i] == c
      requires c.Ok() && |data| <= c.Space()
      modifies this`parts, c`mem, c`off
      ensures Linked() && parts == old(parts)[i := old(parts)[i] + data]
      ensures |c.mem| == old(|c.mem|) && c.off == old(c.off) + |data|
    {
      assert c.Ok() by { assert chains[i].Data() == parts[i]; }
      c.WriteBehind(data);
      parts := parts[i := parts[i] + data];
    }

    /** Write `data` behind the bytes of the last chain with data. */
    method GrowLast(c: Chain, data: seq<Byte>)
      requires Body() && c == At(lwi) && c.Ok() && |data| <= c.Space() && totalLen + |data| <= SIZE_MAX
      modifies this`parts, this`totalLen, c`mem, c`off
      ensures Body() && parts == old(parts)[lwi := old(parts)[lwi] + data]
      ensures Contents() == old(Contents()) + data
      ensures |c.mem| == old(|c.mem|)
      ensures old(Gapless(parts, lwi)) ==> Gapless(parts, lwi)
    {
      FlatGrow(parts, lwi, data);
      totalLen := totalLen + |data|;
      WriteTail(c, lwi, data);
    }

    /** Realign chain i in place. */
    method AlignAt(c: Chain, ghost i: nat)
      requires Linked() && i < |chains| && chains[i] == c
      modifies c`mem, c`misalign
      ensures Linked() && c.Ok() && c.misalign == 0 && |c.mem| == old(|c.mem|)
    {
      assert chains[i].Data() == parts[i];
      c.Align();
    }

    /** A chain for `datlen` more bytes, twice the size of `c` while that is small,
        holding `tail`. */
    method NewChainAfter(c: Chain, datlen: nat, tail: seq<Byte>) returns (tmp: Chain?)
      requires c.Ok() && |tail| <= datlen
      ensures tmp == null <==> datlen > MAX_CHAIN_MEM
      ensures tmp != null ==> datlen <= |tmp.mem| && (if |c.mem| <= 2048 then 2 * |c.mem| else |c.mem|) <= |tmp.mem|
      ensures tmp != null ==> fresh(tmp) && tmp.Ok() && tmp.next == null && tmp.off == |tail| && tmp.Data() == tail
    {
      var toAlloc := |c.mem|;
      if toAlloc <= CHAIN_MAX_AUTO_SIZE / 2 {
        toAlloc := 2 * toAlloc;
      }
      if datlen > toAlloc {
        toAlloc := datlen;
      }
      tmp := ChainNew(toAlloc);
      if tmp != null {
        tmp.WriteBehind(tail);
      }
    }

    /** Put `head` behind `c`, and behind that the chain `tmp`. */
    method AddSplit(c: Chain, tmp: Chain, head: seq<Byte>)
      requires Body() && c == At(lwi) && c.Ok() && |head| <= c.Space() && totalLen + |head| + tmp.off <= SIZE_MAX
      requires tmp !in chains && tmp.Ok() && tmp.next == null
      modifies this`first, this`last, this`lastWithDatap, this`totalLen, this`chains, this`parts, this`lwi
      modifies c`mem, c`off, chains`next
      ensures Shape()
      ensures Contents() == old(Contents()) + head + tmp.Data()
      ensures chains != [] && chains[|chains| - 1] == tmp
      ensures forall i :: 0 <= i < |chains| ==> chains[i] in old(chains) || chains[i] == tmp
      ensures old(Gapless(parts, lwi)) ==> Gapless(parts, lwi)
    {
      if |head| > 0 {
        GrowLast(c, head);
      }
      assert Contents() == old(Contents()) + head;
      ChainInsert(tmp);
    }

    /** A first chain, for a buffer that has none. */
    method FirstChain(datlen: nat) returns (c: Chain?)
      requires Valid() && chains == []
      modifies this`first, this`last, this`lastWithDatap, this`totalLen, this`chains, this`parts, this`lwi
      ensures Valid() && Contents() == [] && totalLen == 0
      ensures c == null <==> datlen > MAX_CHAIN_MEM
      ensures c == null ==> chains == []
      ensures c != null ==>
        fresh(c) && chains == [c] && lwi == 0 && c.Ok() && c.off == c.misalign == 0 && datlen <= |c.mem|
      ensures old(Gapless(parts, lwi)) ==> Gapless(parts, lwi)
    {
      c := ChainNew(datlen);
      if c != null {
        ChainInsert(c);
      }
    }

    /** Put what fits of `data` behind `c`, and the rest into a new chain. */
    method AddSpill(c: Chain, data: seq<Byte>) returns (ok: bool)
      requires Shape() && c == At(lwi) && c.Ok() && c.Space() < |data| && totalLen + |data| <= SIZE_MAX
      modifies this`first, this`last, this`lastWithDatap, this`totalLen, this`chains, this`parts, this`lwi, chains
      ensures Shape()
      ensures ok <==> |data| <= MAX_CHAIN_MEM
      ensures Contents() == old(Contents()) + if ok then data else []
      ensures ok ==> chains != [] && fresh(chains[|chains| - 1])
      ensures forall i :: 0 <= i < |chains| ==> chains[i] in old(chains) || fresh(chains[i])
      ensures old(Gapless(parts, lwi)) ==> Gapless(parts, lwi)
    {
      var remain := c.Space();
      var head, tail := data[..remain], data[remain..];
      InPieces(Contents(), data, remain);
      var tmp := NewChainAfter(c, |data|, tail);
      ok := tmp != null;
      if tmp != null {
        AddSplit(c, tmp, head);
      }
    }

    /** Put `data` behind `c`, the last chain with data: into the room after its
        bytes, into that room after realigning, or partly into a new chain. */
    method AddBehind(c: Chain, data: seq<Byte>) returns (ok: bool)
      requires Shape() && c == At(lwi) && c.Ok() && totalLen + |data| <= SIZE_MAX
      modifies this`first, this`last, this`lastWithDatap, this`totalLen, this`chains, this`parts, this`lwi, chains
      ensures Shape()
      ensures ok <==> |data| <= MAX_CHAIN_MEM
      ensures Contents() == old(Contents()) + if ok then data else []
      ensures forall i :: 0 <= i < |chains| ==> chains[i] in old(chains) || fresh(chains[i])
      ensures old(Gapless(parts, lwi)) ==> Gapless(parts, lwi)
      ensures old(c.Space()) >= |data| ==> chains == old(chains)
      // nor is there a new chain if the chain is less than half full of at most 2048 bytes, and
      // has the room when they are moved to its start
      ensures old(|c.mem| - c.off >= |data| && c.off < |c.mem| / 2 && c.off <= 2048) ==> chains == old(chains)
      ensures ok && chains == old(chains) ==>
        old(c.Space() >= |data| || (|c.mem| - c.off >= |data| && c.off < |c.mem| / 2 && c.off <= 2048))
    {
      ok := true;
      if c.Space() >= |data| {
        GrowLast(c, data);
      } else if c.ShouldRealign(|data|) {
        AlignAt(c, lwi);
        GrowLast(c, data);
      } else {
        ok := AddSpill(c, data);
      }
    }

    /** The last chain with data, or a first chain for a buffer that has none. */
    method ChainToAddTo(datlen: nat) returns (c: Chain?)
      requires Valid()
      modifies this`first, this`last, this`lastWithDatap, this`totalLen, this`chains, this`parts, this`lwi
      ensures Valid() && Contents() == old(Contents()) && totalLen == old(totalLen)
      ensures c == null ==> datlen > MAX_CHAIN_MEM
      ensures c != null ==> c == At(lwi) && c.Ok()
      ensures chains == old(chains) || (chains == [c] && fresh(c))
      ensures old(Gapless(parts, lwi)) ==> Gapless(parts, lwi)
      ensures old(chains) == [] && c != null ==> chains == [c] && c.Space() >= datlen
    {
      c := LastWithDataChain();
      if c == null {
        c := FirstChain(datlen);
      } else {
        assert chains[lwi].Data() == parts[lwi];
      }
    }

    /** evbuffer_add, up to its accounting. */
    method AddBytes(data: seq<Byte>) returns (ok: bool)
      requires Valid()
      modifies this`first, this`last, this`lastWithDatap, this`totalLen, this`chains, this`parts, this`lwi, chains
      ensures Shape()
      ensures ok <==> old(totalLen) + |data| <= SIZE_MAX && |data| <= MAX_CHAIN_MEM
      ensures Contents() == old(Contents()) + if ok then data else []
      ensures forall i :: 0 <= i < |chains| ==> chains[i] in old(chains) || fresh(chains[i])
      ensures old(Gapless(parts, lwi)) ==> Gapless(parts, lwi)
      ensures old(chains) == [] && ok ==> |chains| == 1
    {
      ok := false;
      if |data| <= SIZE_MAX - totalLen {
        var chain := ChainToAddTo(|data|);
        if chain != null {
          ok := AddBehind(chain, data);
        }
      }
    }

    /** evbuffer_add. */
    method Add(data: seq<Byte>) returns (ok: bool)
      requires Valid()
      modifies this, chains
      ensures Valid()
      ensures ok <==> old(totalLen) + |data| <= SIZE_MAX && |data| <= MAX_CHAIN_MEM
      ensures Contents() == old(Contents()) + if ok then data else []
      ensures forall i :: 0 <= i < |chains| ==> chains[i] in old(chains) || fresh(chains[i])
      ensures old(Gapless(parts, lwi)) ==> Gapless(parts, lwi)
      ensures old(chains) == [] && ok ==> |chains| == 1
      ensures notices == if ok then old(Telling(|data|, 0)) else old(notices)
      ensures ok ==> nAdd == 0 && nDel == 0
    {
      ok := AddBytes(data);
      if ok {
        Account(|data|, 0);
      }
    }
  }
}
