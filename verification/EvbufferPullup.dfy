/** Making the first bytes of a buffer contiguous. */
module EvbufferPullup {
  import opened Bytes
  import opened Evbuffers
  import opened EvbufferQueue

  /** The runs once the first `from..k` and `rem` bytes of run k are pulled into the
      run `head` in front. */
  ghost function PulledRuns(parts: seq<seq<Byte>>, head: seq<Byte>, from: nat, k: nat, rem: nat): seq<seq<Byte>>
    requires from <= k <= |parts| && rem <= (if k < |parts| then |parts[k]| else 0)
  {
    if k < |parts|
    then [head + (Flat(parts[from..k]) + parts[k][..rem]), parts[k][rem..]] + parts[k + 1..]
    else [head + Flat(parts[from..k])]
  }

  /** Pulling up neither loses nor moves a byte, and the last run with data is found
      where evbuffer_pullup looks for it. */
  lemma PulledSame(parts: seq<seq<Byte>>, lwi: nat, from: nat, k: nat, rem: nat)
    requires IsLastWithData(parts, lwi) && lwi > 0 && from <= 1 && from <= k <= |parts|
    requires k < |parts| ==> rem < |parts[k]|
    requires k == |parts| ==> rem == 0
    ensures var pulled := PulledRuns(parts, Flat(parts[..from]), from, k, rem);
            && Flat(pulled) == Flat(parts)
            && IsLastWithData(pulled, if lwi < k then 0 else lwi - k + 1)
  {
    var head := Flat(parts[..from]);
    var pulled := PulledRuns(parts, head, from, k, rem);
    FlatSplit(parts[..k], from);
    assert parts[..k][..from] == parts[..from] && parts[..k][from..] == parts[from..k];
    if k < |parts| {
      PulledPart(parts, head, from, k, rem);
      forall i | 2 <= i < |pulled| ensures pulled[i] == parts[k + i - 1] {}
    } else {
      assert parts[..k] == parts;
      FlatOne(pulled[0]);
    }
  }

  lemma Regroup<T>(a: seq<T>, b: seq<T>, p: seq<T>, n: nat, t: seq<T>)
    requires n <= |p|
    ensures a + b + p + t == (a + (b + p[..n])) + (p[n..] + t)
  {
    assert p == p[..n] + p[n..];
  }

  lemma PulledPart(parts: seq<seq<Byte>>, head: seq<Byte>, from: nat, k: nat, rem: nat)
    requires from <= k < |parts| && rem <= |parts[k]|
    requires Flat(parts[..k]) == head + Flat(parts[from..k])
    ensures Flat(PulledRuns(parts, head, from, k, rem)) == Flat(parts)
  {
    FlatAround(parts, k);
    var p, tail := parts[k], parts[k + 1..];
    var front := head + (Flat(parts[from..k]) + p[..rem]);
    Regroup(head, Flat(parts[from..k]), p, rem, Flat(tail));
    PulledFlat(front, p[rem..], tail);
  }

  lemma PulledFlat(a: seq<Byte>, b: seq<Byte>, t: seq<seq<Byte>>)
    ensures Flat([a, b] + t) == a + (b + Flat(t))
  {
    assert [a, b] + t == [a] + ([b] + t);
    FlatCons(b, t);
    FlatCons(a, [b] + t);
  }

  /** The bytes of the runs from `from` up to k. */
  function Between(parts: seq<seq<Byte>>, from: nat, k: nat): seq<Byte>
    requires k <= |parts|
  {
    if k <= from then [] else Between(parts, from, k - 1) + parts[k - 1]
  }

  lemma {:induction false} BetweenIs(parts: seq<seq<Byte>>, from: nat, k: nat)
    requires from <= k <= |parts|
    ensures Between(parts, from, k) == Flat(parts[from..k])
  {
    if from < k {
      BetweenIs(parts, from, k - 1);
      assert parts[from..k] == parts[from..k - 1] + [parts[k - 1]];
      FlatSnoc(parts[from..k - 1], parts[k - 1]);
    }
  }

  lemma AllOfThem(parts: seq<seq<Byte>>, from: nat)
    requires from <= |parts|
    ensures Flat(parts) == Flat(parts[..from]) + Flat(parts[from..|parts|])
  {
    FlatSplit(parts, from);
    assert parts[from..] == parts[from..|parts|];
  }

  lemma SameChain(cs: seq<Chain>, i: nat, j: nat)
    requires NoDup(cs) && i < |cs| && j < |cs|
    ensures cs[i] == cs[j] <==> i == j
  {
  }

  /** Whether chain k is the last with data, and whether it is the one in front. */
  method UsedUp(buf: Evbuffer, c: Chain, ghost k: nat, lastWithData: Chain?) returns (last: bool, holder: bool)
    requires buf.Body() && 0 < buf.lwi && k < |buf.chains| && c == buf.chains[k] && lastWithData == buf.At(buf.lwi)
    ensures last <==> k == buf.lwi
    ensures holder <==> k + 1 == buf.lwi
  {
    SameChain(buf.chains, k, buf.lwi);
    SameChain(buf.chains, k, buf.lwi - 1);
    last, holder := c == lastWithData, c == buf.lastWithDatap;
  }

  /** Read whole chains from chain `from` on while they fit in `n` bytes.  `c`, chain
      k, is the first one not used up (null if all are), and `rem` bytes are still to
      come.  The two flags say whether the last chain with data, or the chain in
      front of it, was used up. */
  method GatherWhole(buf: Evbuffer, c0: Chain?, ghost from: nat, n: nat)
    returns (bytes: seq<Byte>, c: Chain?, ghost k: nat, rem: nat, gone: bool, holderGone: bool)
    requires buf.Body() && buf.lwi > 0 && from <= 1 && c0 == buf.At(from)
    ensures from <= k <= |buf.chains| && c == buf.At(k)
    ensures k < |buf.parts| ==> rem < |buf.parts[k]|
    ensures bytes == Between(buf.parts, from, k) && |bytes| + rem == n
    ensures gone <==> buf.lwi < k
    ensures holderGone <==> from < buf.lwi <= k
  {
    var lastWithData := buf.LastWithDataChain();
    bytes, c, k, rem, gone, holderGone := [], c0, from, n, false, false;
    while c != null && rem >= c.off
      invariant from <= k <= |buf.chains| && c == buf.At(k)
      invariant bytes == Between(buf.parts, from, k) && |bytes| + rem == n
      invariant gone <==> from <= buf.lwi < k
      invariant holderGone <==> from < buf.lwi <= k
      decreases |buf.chains| - k
    {
      assert c.Data() == buf.parts[k];
      bytes := bytes + c.Slice(0, c.off);
      rem := rem - c.off;
      var last, holder := UsedUp(buf, c, k, lastWithData);
      gone, holderGone := gone || last, holderGone || holder;
      c := c.next;
      k := k + 1;
    }
    if c != null { assert c.Data() == buf.parts[k]; }
  }

  /** Read `n` bytes from chain `from` on, the last `rem` of them from chain k. */
  method Gather(buf: Evbuffer, c0: Chain?, ghost from: nat, n: nat)
    returns (bytes: seq<Byte>, c: Chain?, ghost k: nat, rem: nat, gone: bool, holderGone: bool)
    requires buf.Body() && buf.lwi > 0 && from <= 1 && c0 == buf.At(from)
    requires |Flat(buf.parts[..from])| + n <= buf.totalLen
    ensures from <= k <= |buf.chains| && c == buf.At(k) && rem <= n
    ensures k < |buf.parts| ==> rem < |buf.parts[k]|
    ensures k == |buf.parts| ==> rem == 0
    ensures bytes == Flat(buf.parts[from..k]) + (if k < |buf.parts| then buf.parts[k][..rem] else []) && |bytes| == n
    ensures gone <==> buf.lwi < k
    ensures holderGone <==> from < buf.lwi <= k
  {
    bytes, c, k, rem, gone, holderGone := GatherWhole(buf, c0, from, n);
    BetweenIs(buf.parts, from, k);
    if c != null {
      assert c.Data() == buf.parts[k];
      bytes := bytes + c.Slice(0, rem);
    } else {
      AllOfThem(buf.parts, from);
    }
  }

  /** Make `tmp` the only chain before chain k: it is the first chain, or a new one. */
  method Relink(buf: Evbuffer, tmp: Chain, c: Chain?, ghost k: nat)
    requires buf.Linked() && k <= |buf.chains| && c == buf.At(k) && tmp.Ok()
    requires tmp !in buf.chains || (k > 0 && tmp == buf.chains[0])
    modifies buf`first, buf`chains, buf`parts, tmp`next
    ensures buf.Linked()
    ensures buf.chains == [tmp] + old(buf.chains)[k..] && buf.parts == [tmp.Data()] + old(buf.parts)[k..]
  {
    UnlinkFront(buf, c, k);
    LinkFront(buf, tmp);
  }

  /** `tmp` may take `n` more bytes as the first chain: it is the first chain, or a
      new one that is empty. */
  ghost predicate CanTake(buf: Evbuffer, tmp: Chain, from: nat, n: nat)
    reads buf`chains, tmp
  {
    && tmp.Ok() && tmp.misalign + tmp.off + n <= |tmp.mem|
    && (if from == 1 then tmp == buf.At(0) else from == 0 && tmp !in buf.chains && tmp.off == 0)
  }

  /** Rebuild the front of the list: `tmp` with `bytes` behind its own, then chain k
      without its first `rem` bytes. */
  method PullBytes(buf: Evbuffer, tmp: Chain, c: Chain?, ghost from: nat, ghost k: nat, bytes: seq<Byte>, rem: nat)
    requires buf.Linked() && from <= k <= |buf.chains| && c == buf.At(k) && CanTake(buf, tmp, from, |bytes|)
    requires rem <= if k < |buf.parts| then |buf.parts[k]| else 0
    requires bytes == Flat(buf.parts[from..k]) + (if k < |buf.parts| then buf.parts[k][..rem] else [])
    modifies buf`first, buf`chains, buf`parts, tmp, buf.chains
    ensures buf.Linked() && buf.chains == [tmp] + old(buf.chains)[k..]
    ensures buf.parts == old(PulledRuns(buf.parts, Flat(buf.parts[..from]), from, k, rem))
  {
    ghost var runs := buf.parts;
    assert tmp.Data() == Flat(runs[..from]) by {
      if from == 1 { assert runs[..1] == [runs[0]]; FlatOne(runs[0]); assert buf.chains[0].Data() == runs[0]; }
    }
    PulledIs(runs, tmp.Data(), from, k, rem, bytes);
    RelinkAndShave(buf, tmp, c, k, rem);
    buf.WriteTail(tmp, 0, bytes);
  }

  /** The chains from `c` on linked behind `tmp`, and `rem` bytes taken off `c`. */
  method RelinkAndShave(buf: Evbuffer, tmp: Chain, c: Chain?, ghost k: nat, rem: nat)
    requires buf.Linked() && k <= |buf.chains| && c == buf.At(k) && tmp.Ok()
    requires tmp !in buf.chains || (k > 0 && tmp == buf.chains[0])
    requires rem <= if k < |buf.parts| then |buf.parts[k]| else 0
    modifies buf`first, buf`chains, buf`parts, tmp`next, buf.chains`misalign, buf.chains`off
    ensures buf.Linked() && tmp.Ok() && tmp.Space() == old(tmp.Space())
    ensures buf.chains == [tmp] + old(buf.chains)[k..]
    ensures buf.parts == old(ShavedRuns(tmp.Data(), buf.parts, k, rem))
  {
    Relink(buf, tmp, c, k);
    if c != null {
      ShaveChain(buf, c, 1, rem);
    }
  }

  /** The runs from k on behind another, and `rem` bytes taken off the first of them. */
  ghost function ShavedRuns(head: seq<Byte>, parts: seq<seq<Byte>>, k: nat, rem: nat): seq<seq<Byte>>
    requires k <= |parts| && rem <= (if k < |parts| then |parts[k]| else 0)
  {
    if k < |parts| then [head, parts[k][rem..]] + parts[k + 1..] else [head]
  }

  /** And `bytes` put behind the head. */
  lemma PulledIs(parts: seq<seq<Byte>>, head: seq<Byte>, from: nat, k: nat, rem: nat, bytes: seq<Byte>)
    requires from <= k <= |parts| && rem <= (if k < |parts| then |parts[k]| else 0)
    requires bytes == Flat(parts[from..k]) + (if k < |parts| then parts[k][..rem] else [])
    ensures ShavedRuns(head, parts, k, rem)[0 := head + bytes] == PulledRuns(parts, head, from, k, rem)
  {
    if k == |parts| { assert bytes == Flat(parts[from..k]); }
  }

  /** PullBytes, as the whole buffer sees it. */
  method PullFrom(buf: Evbuffer, tmp: Chain, c: Chain?, ghost from: nat, ghost k: nat, bytes: seq<Byte>, rem: nat)
    requires buf.Body() && buf.lwi > 0 && from <= 1 && from <= k <= |buf.chains| && c == buf.At(k)
      && CanTake(buf, tmp, from, |bytes|)
    requires k < |buf.parts| ==> rem < |buf.parts[k]|
    requires k == |buf.parts| ==> rem == 0
    requires bytes == Flat(buf.parts[from..k]) + (if k < |buf.parts| then buf.parts[k][..rem] else [])
    modifies buf`first, buf`chains, buf`parts, tmp, buf.chains
    ensures buf.Linked() && buf.chains == [tmp] + old(buf.chains)[k..]
    ensures buf.Contents() == old(buf.Contents())
    ensures IsLastWithData(buf.parts, if buf.lwi < k then 0 else buf.lwi - k + 1)
    ensures |buf.parts[0]| == |old(Flat(buf.parts[..from]))| + |bytes|
  {
    PulledSame(buf.parts, buf.lwi, from, k, rem);
    PullBytes(buf, tmp, c, from, k, bytes, rem);
  }

  /** lastWithDatap after the pull. */
  method ResetLastWithDatap(buf: Evbuffer, tmp: Chain, ghost was: nat, ghost k: nat, ghost from: nat, gone: bool,
      holderGone: bool)
    requires buf.Linked() && buf.chains != [] && tmp == buf.chains[0] && from <= 1
    requires IsLastWithData(buf.parts, if was < k then 0 else was - k + 1) && 0 < was
    requires gone <==> was < k
    requires holderGone <==> from < was <= k
    requires was > k ==> was - k < |buf.chains| && buf.lastWithDatap == buf.chains[was - k]
    requires was == k == from ==> buf.lastWithDatap == tmp
    requires from <= k
    modifies buf`lastWithDatap, buf`lwi
    ensures buf.LastWithData()
  {
    buf.lwi := if was < k then 0 else was - k + 1;
    if gone {
      buf.lastWithDatap := null;
    } else if holderGone {
      assert buf.chains[1].Data() == buf.parts[1];
      buf.lastWithDatap := if buf.first.next != null && buf.first.next.off != 0 then buf.first else null;
    }
  }

  /** Rebuild the buffer around the bytes gathered. */
  method Rebuild(buf: Evbuffer, tmp: Chain, c: Chain?, ghost from: nat, ghost k: nat, bytes: seq<Byte>, rem: nat,
                 gone: bool, holderGone: bool)
    requires buf.Shape() && buf.lwi > 0 && from <= 1 && from <= k <= |buf.chains| && c == buf.At(k)
    requires CanTake(buf, tmp, from, |bytes|)
    requires k < |buf.parts| ==> rem < |buf.parts[k]|
    requires k == |buf.parts| ==> rem == 0
    requires bytes == Flat(buf.parts[from..k]) + (if k < |buf.parts| then buf.parts[k][..rem] else [])
    requires gone <==> buf.lwi < k
    requires holderGone <==> from < buf.lwi <= k
    modifies buf`first, buf`last, buf`lastWithDatap, buf`chains, buf`parts, buf`lwi, tmp, buf.chains
    ensures buf.Shape() && buf.Contents() == old(buf.Contents())
    ensures buf.chains == [tmp] + old(buf.chains)[k..] && |buf.parts[0]| == |old(Flat(buf.parts[..from]))| + |bytes|
  {
    ghost var was := buf.lwi;
    PullFrom(buf, tmp, c, from, k, bytes, rem);
    if c == null {
      buf.last := tmp;
    }
    ResetLastWithDatap(buf, tmp, was, k, from, gone, holderGone);
  }

  /** Pull the first bytes of the buffer, `n` of them from chain `from` on, into `tmp`. */
  method PullInto(buf: Evbuffer, tmp: Chain, c0: Chain?, ghost from: nat, n: nat)
    requires buf.Shape() && buf.lwi > 0 && from <= 1 && c0 == buf.At(from) && CanTake(buf, tmp, from, n)
    requires |Flat(buf.parts[..from])| + n <= buf.totalLen
    modifies buf`first, buf`last, buf`lastWithDatap, buf`chains, buf`parts, buf`lwi, tmp, buf.chains
    ensures buf.Shape() && buf.Contents() == old(buf.Contents())
    ensures buf.chains != [] && tmp == buf.chains[0] && |buf.parts[0]| == |old(Flat(buf.parts[..from]))| + n
    ensures forall i :: 0 <= i < |buf.chains| ==> buf.chains[i] == tmp || buf.chains[i] in old(buf.chains)
  {
    var bytes, c, rem, gone, holderGone;
    ghost var k;
    bytes, c, k, rem, gone, holderGone := Gather(buf, c0, from, n);
    ghost var cs := buf.chains;
    Rebuild(buf, tmp, c, from, k, bytes, rem, gone, holderGone);
    assert forall i {:trigger buf.chains[i]} :: 0 < i < |buf.chains| ==> buf.chains[i] == cs[k + i - 1];
  }

  /** evbuffer_pullup: the first `size` bytes (all of them for a negative `size`) made
      contiguous in the first chain, which is returned; null if there are not so many. */
  method Pullup(buf: Evbuffer, size: int) returns (c: Chain?)
    requires buf.Valid()
    modifies buf`first, buf`last, buf`lastWithDatap, buf`chains, buf`parts, buf`lwi, buf.chains
    ensures buf.Valid() && buf.Contents() == old(buf.Contents())
    ensures forall i :: 0 <= i < |buf.chains| ==> buf.chains[i] in old(buf.chains) || fresh(buf.chains[i])
    ensures var n := if size < 0 then buf.totalLen else size;
            && (c == null <== n == 0 || n > buf.totalLen)
            && (c == null ==> n == 0 || n > buf.totalLen || n > MAX_CHAIN_MEM)
            && (c != null ==> c == buf.At(0) && c.Ok() && n <= c.off && c.Data()[..n] == buf.Contents()[..n])
  {
    var n: nat := if size < 0 then buf.totalLen else size;
    c := null;
    if 0 < n <= buf.totalLen {
      c := PullFront(buf, n);
      if c != null {
        assert c.Data() == buf.parts[0];
      }
    }
  }

  method PullFront(buf: Evbuffer, n: nat) returns (c: Chain?)
    requires buf.Shape() && 0 < n <= buf.totalLen
    modifies buf`first, buf`last, buf`lastWithDatap, buf`chains, buf`parts, buf`lwi, buf.chains
    ensures buf.Shape() && buf.Contents() == old(buf.Contents())
    ensures forall i :: 0 <= i < |buf.chains| ==> buf.chains[i] in old(buf.chains) || fresh(buf.chains[i])
    ensures c == null ==> n > MAX_CHAIN_MEM
    ensures c != null ==> c == buf.At(0) && n <= |buf.parts[0]|
  {
    c := buf.first;
    assert buf.chains != [];
    assert c.Data() == buf.parts[0];
    assert buf.parts[..1] == [buf.parts[0]];
    FlatOne(buf.parts[0]);
    if c.off < n {
      if buf.lwi == 0 { FlatTrim(buf.parts, 1); }
      if |c.mem| - c.misalign >= n {
        PullInto(buf, c, c.next, 1, n - c.off);
      } else {
        var tmp := ChainNew(n);
        if tmp != null {
          PullInto(buf, tmp, c, 0, n);
        }
        c := tmp;
      }
    }
  }
}
