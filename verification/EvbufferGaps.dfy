/** How an empty chain gets between chains with data, and what it does to a move. */
module EvbufferGaps {
  import opened Bytes
  import opened Evbuffers
  import opened EvbufferMove
  import opened EvbufferExpand
  import opened EvbufferQueue
  import opened EvbufferRead

  lemma OnePart(parts: seq<seq<Byte>>)
    requires |parts| == 1
    ensures parts == [Flat(parts)]
  {
    FlatOne(parts[0]);
    assert parts == [parts[0]];
  }

  /** A buffer with one chain, which holds one byte. */
  method OneByte(x: Byte) returns (buf: Evbuffer)
    ensures fresh(buf) && buf.Valid() && buf.parts == [[x]]
    ensures fresh(buf.chains)
  {
    buf := new Evbuffer(false);
    var ok := buf.Add([x]);
    OnePart(buf.parts);
    assert buf.Contents() == [] + [x] == [x];
  }

  /** The same with an empty chain behind it, where room was asked for. */
  method OneByteAndRoom(x: Byte) returns (buf: Evbuffer)
    ensures fresh(buf) && buf.Valid() && buf.parts == [[x], []]
    ensures fresh(buf.chains)
  {
    buf := OneByte(x);
    var c := buf.first;
    assert c.Ok() && c.Data() == buf.parts[0];
    AskForMore(buf, c, |c.mem|);
  }

  /** evbuffer_reserve_space with several vectors, for more than the only chain of a buffer
      can take: an empty chain is added. */
  method AskForMore(buf: Evbuffer, ghost c: Chain, datlen: nat)
    requires buf.Valid() && buf.chains == [c] && c.Ok() && |c.mem| < datlen + c.off && datlen <= MAX_CHAIN_MEM
    modifies buf, c`next, c`misalign
    ensures buf.Valid() && |buf.chains| == 2 && buf.chains[0] == c && fresh(buf.chains[1])
    ensures buf.parts == [old(buf.parts[0]), []]
    ensures buf.chains[1].Ok() && buf.chains[1].Space() + |c.mem| >= datlen + c.off
  {
    ghost var run := buf.parts[0];
    assert c.Data() == run;
    OnePart(buf.parts);
    var ok;
    ghost var gaps;
    ok, gaps := ExpandFast(buf, datlen, 4);
    assert c.Data() == buf.parts[0];
    if |buf.chains| == 2 { TwoParts(buf.parts, run); }
    RoomGives(buf, buf.lwi, gaps, 0);
    if |gaps| == 1 { SumOfOne(gaps); } else { SumOfTwo(gaps); RoomGives(buf, buf.lwi, gaps, 1); }
  }

  lemma TwoParts(parts: seq<seq<Byte>>, run: seq<Byte>)
    requires |parts| == 2 && Flat(parts) == run && |parts[0]| == |run|
    ensures parts == [run, []]
  {
    FlatOne(parts[1]);
    assert parts[1..] == [parts[1]];
    assert run == parts[0] + parts[1];
    assert parts[1] == [] && parts[0] + [] == parts[0];
  }

  lemma SumOfOne(gaps: seq<nat>)
    requires |gaps| == 1
    ensures Sum(gaps) == gaps[0]
  {
    assert gaps[..0] == [];
  }

  lemma SumOfTwo(gaps: seq<nat>)
    requires |gaps| == 2
    ensures Sum(gaps) == gaps[0] + gaps[1]
  {
    SumOfOne(gaps[..1]);
  }

  /** evbuffer_prepend_buffer of two buffers that have bytes. */
  method InFront(buf: Evbuffer, front: Evbuffer)
    requires buf.Valid() && front.Valid() && Apart(buf, front)
    requires 0 < buf.totalLen < 10 && 0 < front.totalLen < 10
    modifies buf, front, buf.chains, front.chains
    ensures buf.Valid() && buf.parts == old(front.parts + buf.parts)
    ensures buf.chains == old(front.chains + buf.chains)
  {
    PrependBuffer(buf, front);
  }

  /** That put in front of another buffer: the empty chain now stands between the two. */
  method Gap(x: Byte) returns (buf: Evbuffer)
    ensures fresh(buf) && buf.Valid() && buf.parts == [[x], [], [x]]
    ensures fresh(buf.chains)
  {
    buf := OneByte(x);
    var front := OneByteAndRoom(x);
    FlatOf(x);
    InFront(buf, front);
  }

  /** And that put in front of a fourth chain. */
  method GapAndMore(x: Byte) returns (buf: Evbuffer)
    ensures fresh(buf) && buf.Valid() && buf.parts == [[x], [], [x], [x]]
    ensures fresh(buf.chains)
  {
    buf := OneByte(x);
    var front := Gap(x);
    FlatOf(x);
    InFront(buf, front);
  }

  lemma FlatOf(x: Byte)
    ensures Flat([[x]]) == [x] && Flat([[x], []]) == [x] && Flat([[x], [], [x]]) == [x, x]
    ensures Flat([[x], [], [x], [x]]) == [x, x, x]
  {
    FlatSnoc([], [x]);
    FlatSnoc([[x]], []);
    FlatSnoc([[x], []], [x]);
    FlatSnoc([[x], [], [x]], [x]);
    assert [[x], [], [x]] + [[x]] == [[x], [], [x], [x]];
    assert [[x], []] + [[x]] == [[x], [], [x]];
    assert [[x]] + [[]] == [[x], []];
    assert [] + [[x]] == [[x]];
  }

  /** Two bytes out of such a buffer are moved by their chains, the empty one among them,
      and the buffer that gets them takes the first for its last chain with data. */
  method LoseTrack(dst: Evbuffer, src: Evbuffer, ghost x: Byte)
    requires dst.Shape() && src.Shape() && Apart(dst, src)
    requires dst.Contents() == [] && src.parts == [[x], [], [x], [x]]
    modifies dst, dst.chains, src, src.chains
    ensures dst.Contents() + src.Contents() == [x, x, x] && src.LastWithData()
    ensures !dst.LastWithData()
  {
    FlatOf(x);
    Hole(src.parts, src.lwi, x);
    var _, nread, rem, _ := TakeWholeChains(dst, src, 2);
    // no byte is left to copy, so that this is all
    assert rem == 0;
  }

  /** The condition of evbuffer_remove_buffer fails of buffers that can arise. */
  method MoveAcrossGap(x: Byte) returns (dst: Evbuffer, src: Evbuffer)
    ensures dst.Contents() + src.Contents() == [x, x, x] && src.LastWithData()
    ensures !dst.LastWithData()
  {
    dst := new Evbuffer(false);
    src := GapAndMore(x);
    LoseTrack(dst, src, x);
  }

  lemma Hole(parts: seq<seq<Byte>>, lwi: nat, x: Byte)
    requires parts == [[x], [], [x], [x]] && IsLastWithData(parts, lwi)
    ensures Whole(parts, 2) == 3 && |Flat(parts[..3])| == 2 && !TargetKept(parts[..3], true) && SourceKept(parts, lwi)
  {
    FlatOf(x);
    assert parts[..3] == [[x], [], [x]];
    WholeIs(parts, 2, 3, 0);
    assert parts[..3][1] == [] && parts[..3][2] != [];
    assert parts[0] != [];
  }

  /** Two empty chains: room was asked for, and then for more than the first chain has. */
  method TwoRooms() returns (buf: Evbuffer)
    ensures fresh(buf) && buf.Valid() && buf.parts == [[], []]
    ensures fresh(buf.chains) && buf.chains[1].Ok() && buf.chains[1].Space() >= 2
  {
    buf := new Evbuffer(false);
    var ok, _ := ExpandFast(buf, 1, 2);
    var c := buf.first;
    assert c.Ok() && c.Data() == buf.parts[0];
    OnePart(buf.parts);
    AskForMore(buf, c, |c.mem| + 2);
  }

  /** A buffer whose data stand behind an empty chain.  Putting no bytes in front leaves the
      first chain without room behind; so the next bytes go to the second, where they are
      committed. */
  method LeadingGap(x: Byte) returns (buf: Evbuffer)
    ensures fresh(buf) && buf.Valid() && buf.parts == [[], [x, x]]
    ensures fresh(buf.chains)
  {
    buf := TwoRooms();
    ghost var c := buf.chains[0];
    assert c.Ok() && c.Data() == buf.parts[0];
    FlatOfEmpties(buf.parts);
    var _, _ := Prepend(buf, []);
    ghost var i;
    var r;
    r, i := ExpandSinglechain(buf, 2);
    ghost var last := |buf.chains| - 1;
    CommitLast(buf, r, [x, x]);
    assert [] + [x, x] == [x, x] && last == 1;
  }

  /** From that a byte is taken: no whole chain moves, but the buffer has lost track of its
      own data. */
  method MoveBehindGap(x: Byte) returns (dst: Evbuffer, src: Evbuffer)
    ensures dst.Valid() && dst.Contents() == [x] && src.Linked() && src.parts == [[], [x]]
    ensures !src.LastWithData()
  {
    dst := new Evbuffer(false);
    src := LeadingGap(x);
    LoseItself(dst, src, x);
  }

  method LoseItself(dst: Evbuffer, src: Evbuffer, ghost x: Byte)
    requires dst.Valid() && src.Valid() && Apart(dst, src)
    requires dst.Contents() == [] && src.parts == [[], [x, x]]
    modifies dst, dst.chains, src, src.chains
    ensures dst.Valid() && dst.Contents() == [x] && src.Linked() && src.parts == [[], [x]]
    ensures !src.LastWithData()
  {
    NoWhole(src.parts, src.lwi, x);
    var c, nread, rem, j := TakeWholeChains(dst, src, 1);
    SecondHolds(src.parts, x, j, rem);
    TakeOne(dst, src, c, x);
  }

  /** The copy that follows, of one byte. */
  method TakeOne(dst: Evbuffer, src: Evbuffer, c: Chain, ghost x: Byte)
    requires dst.Valid() && src.Linked() && Apart(dst, src)
    requires dst.Contents() == [] && src.parts == [[], [x, x]] && c == src.chains[1]
    modifies dst, dst.chains, src`parts, c`misalign, c`off
    ensures dst.Valid() && dst.Contents() == [x] && src.Linked() && src.parts == [[], [x]]
    ensures src.LastWithData() <==> old(src.LastWithData())
  {
    assert c.Data() == src.parts[1];
    AddBeside(dst, src, c.Slice(0, 1), dst.Telling(1, 0));
    ghost var ds := dst.chains;
    assert c in src.chains && forall i {:trigger ds[i]} :: 0 <= i < |ds| ==> ds[i] in ds;
    ShaveChain(src, c, 1, 1);
    SameLast(src.lwi, x);
  }

  lemma SameLast(k: nat, x: Byte)
    ensures IsLastWithData([[], [x, x]], k) <==> IsLastWithData([[], [x]], k)
  {
    var a: seq<seq<Byte>>, b: seq<seq<Byte>> := [[], [x, x]], [[], [x]];
    assert a[1] != [] && b[1] != [];
  }

  lemma NoWhole(parts: seq<seq<Byte>>, lwi: nat, x: Byte)
    requires parts == [[], [x, x]] && IsLastWithData(parts, lwi)
    ensures Flat(parts) == [x, x] && Whole(parts, 1) == 1 && Flat(parts[..1]) == [] && !SourceKept(parts, lwi)
  {
    assert parts[1..] == [[x, x]];
    FlatOne([x, x]);
    assert parts[..1] == [[]];
    FlatOne<Byte>([]);
    WholeIs(parts, 1, 1, 1);
  }

  lemma SecondHolds(parts: seq<seq<Byte>>, x: Byte, j: nat, rem: nat)
    requires parts == [[], [x, x]] && j < 2 && rem < |parts[j]|
    ensures j == 1
  {
  }
}
