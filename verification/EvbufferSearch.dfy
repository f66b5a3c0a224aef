/** Positions in a buffer, and searching across its chains. */
module EvbufferSearch {
  import opened Bytes
  import opened Evbuffers
  import opened EvbufferQueue

  /** `w` occurs at position q of `s`. */
  ghost predicate MatchAt(s: seq<Byte>, q: int, w: seq<Byte>) {
    0 <= q && q + |w| <= |s| && s[q..q + |w|] == w
  }

  /** memchr: the first place of `b` in `s`, or |s|. */
  function Memchr(s: seq<Byte>, b: Byte): (i: nat)
    ensures i <= |s|
    ensures i < |s| ==> s[i] == b
    ensures forall j :: 0 <= j < i ==> s[j] != b
  {
    if s == [] || s[0] == b then 0
    else
      var i := Memchr(s[1..], b);
      assert forall j :: 1 <= j < i + 1 ==> s[j] == s[1..][j - 1];
      i + 1
  }

  /** The walk of evbuffer_ptr_set: from `p` in chain k, `left` bytes on. */
  method Walk(buf: Evbuffer, p: Ptr, ghost k: nat, left: nat) returns (r: Ptr, ghost j: nat)
    requires buf.Linked() && buf.Points(p, k)
    ensures p.pos + left <= |buf.Contents()| ==> buf.Points(r, j) && r.pos == p.pos + left
    ensures p.pos + left <= |buf.Contents()| && j < |buf.parts| ==> r.inChain < |buf.parts[j]|
    ensures p.pos + left > |buf.Contents()| ==> r == NOT_FOUND
  {
    var chain, position: nat, togo: nat := p.chain, p.inChain, left;
    j := k;
    AtEnd(buf.parts);
    while chain != null && position + togo >= chain.off
      invariant j <= |buf.chains| && chain == buf.At(j)
      invariant buf.Points(Ptr(p.pos + left - togo, chain, position), j)
      decreases |buf.chains| - j
    {
      assert chain.Data() == buf.parts[j];
      RunBytes(buf.parts, j);
      togo := togo - (chain.off - position);
      chain := chain.next;
      position := 0;
      j := j + 1;
    }
    if chain != null {
      assert chain.Data() == buf.parts[j];
      RunBytes(buf.parts, j);
      r := Ptr(p.pos + left, chain, position + togo);
    } else if togo == 0 {
      r := Ptr(p.pos + left, null, 0);
    } else {
      r := NOT_FOUND;
    }
  }

  datatype How = SET | ADD

  /** evbuffer_ptr_set. */
  method PtrSet(buf: Evbuffer, p: Ptr, ghost k: nat, position: nat, how: How) returns (r: Ptr, ok: bool, ghost j: nat)
    requires buf.Linked()
    requires how.ADD? && p.pos >= 0 ==> buf.Points(p, k)
    ensures var target := if how.SET? then position else p.pos + position;
            ok <==> target <= |buf.Contents()| && (how.ADD? ==> 0 <= p.pos && target <= SIZE_MAX)
    ensures ok ==> buf.Points(r, j) && r.pos == if how.SET? then position else p.pos + position
    ensures ok && j < |buf.parts| ==> r.inChain < |buf.parts[j]|
    ensures !ok ==> r == NOT_FOUND || r == p
  {
    if how.SET? {
      r, j := Walk(buf, Ptr(0, buf.first, 0), 0, position);
    } else if p.pos < 0 || SIZE_MAX - position < p.pos {
      return p, false, 0;
    } else {
      r, j := Walk(buf, p, k, position);
    }
    ok := r.pos >= 0;
  }

  /** evbuffer_ptr_subtract. */
  method PtrSubtract(buf: Evbuffer, p: Ptr, ghost k: nat, howfar: nat) returns (r: Ptr, ok: bool, ghost j: nat)
    requires buf.Linked() && (p.pos >= 0 ==> buf.Points(p, k))
    ensures ok <==> 0 <= p.pos - howfar
    ensures ok ==> buf.Points(r, j) && r.pos == p.pos - howfar
    ensures ok && howfar > 0 ==> j < |buf.parts| && r.inChain < |buf.parts[j]|
  {
    if p.pos < 0 || howfar > p.pos {
      return p, false, 0;
    }
    RunBounds(buf.parts, k, p.inChain);
    if p.chain != null && howfar <= p.inChain {
      return Ptr(p.pos - howfar, p.chain, p.inChain - howfar), true, k;
    }
    r, ok, j := PtrSet(buf, p, k, p.pos - howfar, SET);
    AtEnd(buf.parts);
  }

  /** A position in a chain is no further than the end. */
  lemma RunBounds(parts: seq<seq<Byte>>, k: nat, i: nat)
    requires k <= |parts| && i <= (if k < |parts| then |parts[k]| else 0)
    ensures Before(parts, k) + i <= |Flat(parts)|
  {
    AtEnd(parts);
    if k < |parts| { RunBytes(parts, k); }
  }

  // ----- searching for a byte string

  /** `w` agrees with `s` on its first n bytes from `at` on. */
  ghost predicate AgreeUpTo(s: seq<Byte>, at: nat, w: seq<Byte>, n: nat) {
    n <= |w| && at + n <= |s| && forall t {:trigger w[t]} :: 0 <= t < n ==> s[at + t] == w[t]
  }

  /** Agreement on the next bytes is agreement with them inside one run. */
  lemma AgreeStep(parts: seq<seq<Byte>>, k: nat, i: nat, at: nat, w: seq<Byte>, n: nat, m: nat)
    requires k < |parts| && i + m <= |parts[k]| && n + m <= |w|
    requires Before(parts, k) + i == at + n
    requires AgreeUpTo(Flat(parts), at, w, n)
    ensures at + n + m <= |Flat(parts)|
    ensures AgreeUpTo(Flat(parts), at, w, n + m) <==> parts[k][i..i + m] == w[n..n + m]
  {
    BeforeIs(parts, k);
    RunBytes(parts, k);
    FlatRun(parts, k);
    assert Flat(parts)[at + n..at + n + m] == parts[k][i..i + m];
    AgreeFurther(Flat(parts), at, w, n, m);
  }

  /** Agreement on m more bytes is agreement of two slices. */
  lemma AgreeFurther(s: seq<Byte>, at: nat, w: seq<Byte>, n: nat, m: nat)
    requires AgreeUpTo(s, at, w, n) && n + m <= |w| && at + n + m <= |s|
    ensures AgreeUpTo(s, at, w, n + m) <==> s[at + n..at + n + m] == w[n..n + m]
  {
    var a, b := s[at + n..at + n + m], w[n..n + m];
    if a == b {
      forall t | 0 <= t < n + m ensures s[at + t] == w[t] {
        if n <= t { assert a[t - n] == b[t - n]; }
      }
    }
    if AgreeUpTo(s, at, w, n + m) {
      forall u | 0 <= u < m ensures a[u] == b[u] {
        assert s[at + (n + u)] == w[n + u];
      }
    }
  }

  /** A match agrees on any number of first bytes. */
  lemma MatchAgrees(s: seq<Byte>, at: nat, w: seq<Byte>, n: nat)
    requires n <= |w|
    ensures MatchAt(s, at, w) ==> AgreeUpTo(s, at, w, n)
    ensures AgreeUpTo(s, at, w, |w|) <==> MatchAt(s, at, w)
    ensures MatchAt(s, at, w) && n < |w| ==> s[at + n] == w[n]
  {
    if at + |w| <= |s| {
      var m := s[at..at + |w|];
      assert forall t {:trigger w[t]} :: 0 <= t < |w| ==> m[t] == s[at + t];
    }
  }

  /** One memcmp: the `m` bytes from `p` on against those of `mem` from n on. */
  method CompareHere(buf: Evbuffer, p: Ptr, ghost j: nat, ghost start: nat, mem: seq<Byte>, n: nat, m: nat)
    returns (same: bool)
    requires buf.Linked() && buf.Points(p, j) && p.chain != null && p.inChain + m <= p.chain.off
    requires n + m <= |mem| && p.pos == start + n && AgreeUpTo(buf.Contents(), start, mem, n)
    ensures same <==> AgreeUpTo(buf.Contents(), start, mem, n + m)
    ensures !same ==> !MatchAt(buf.Contents(), start, mem)
    ensures p.inChain + m == p.chain.off ==> buf.Points(Ptr(p.pos + m, p.chain.next, 0), j + 1)
  {
    assert p.chain.Data() == buf.parts[j];
    RunBytes(buf.parts, j);
    AgreeStep(buf.parts, j, p.inChain, start, mem, n, m);
    MatchAgrees(buf.Contents(), start, mem, n + m);
    same := p.chain.Slice(p.inChain, p.inChain + m) == mem[n..n + m];
  }

  /** evbuffer_ptr_memcmp, of which only a zero result is ever looked at. */
  method PtrMemcmp(buf: Evbuffer, p: Ptr, ghost k: nat, mem: seq<Byte>) returns (equal: bool)
    requires buf.Linked() && buf.totalLen == |buf.Contents()| && (p.pos >= 0 ==> buf.Points(p, k))
    ensures equal <==> MatchAt(buf.Contents(), p.pos, mem)
  {
    if p.pos < 0 || p.pos + |mem| > buf.totalLen {
      return false;
    }
    var at, n: nat := p, 0;
    ghost var j := k;
    equal := true;
    AtEnd(buf.parts);
    while equal && n < |mem| && at.chain != null
      invariant n <= |mem| && j <= |buf.chains|
      invariant equal && n < |mem| ==> buf.Points(at, j) && at.pos == p.pos + n
      invariant if equal then AgreeUpTo(buf.Contents(), p.pos, mem, n) else !MatchAt(buf.Contents(), p.pos, mem)
      decreases |buf.chains| - j, equal
    {
      assert at.chain.Data() == buf.parts[j];
      var nComparable := if |mem| - n + at.inChain > at.chain.off then at.chain.off - at.inChain else |mem| - n;
      equal := CompareHere(buf, at, j, p.pos, mem, n, nComparable);
      n := n + nComparable;
      at := Ptr(at.pos + nComparable, at.chain.next, 0);
      j := j + 1;
    }
    MatchAgrees(buf.Contents(), p.pos, mem, 0);
  }

  /** No occurrence of `w` starts in lo..hi. */
  ghost predicate NoneIn(s: seq<Byte>, lo: int, hi: int, w: seq<Byte>) {
    forall q :: lo <= q < hi ==> !MatchAt(s, q, w)
  }

  /** A stretch of one chain without the first byte of `w` holds no start of `w`. */
  lemma SkipStretch(parts: seq<seq<Byte>>, k: nat, i: nat, n: nat, w: seq<Byte>)
    requires k < |parts| && i + n <= |parts[k]| && w != []
    requires forall j :: i <= j < i + n ==> parts[k][j] != w[0]
    ensures var at := Before(parts, k) + i; NoneIn(Flat(parts), at, at + n, w)
  {
    var base := Before(parts, k);
    RunBytes(parts, k);
    forall q | base + i <= q < base + i + n ensures !MatchAt(Flat(parts), q, w) {
      MatchAgrees(Flat(parts), q, w, 0);
      assert Flat(parts)[base + (q - base)] == parts[k][q - base];
    }
  }

  /** Where the search must end, if anywhere. */
  datatype Bound = NoEnd | End(p: Ptr)

  ghost function Limit(b: Bound, s: seq<Byte>): int {
    if b.NoEnd? then |s| else b.p.pos
  }

  /** Nothing from `lo` on ends by `limit`. */
  ghost predicate NoneWithin(s: seq<Byte>, lo: int, limit: int, w: seq<Byte>) {
    forall q :: lo <= q && MatchAt(s, q, w) ==> q + |w| > limit
  }

  /** The next byte `b` in the chain of `p`, or the end of that chain. */
  method Candidate(buf: Evbuffer, p: Ptr, ghost k: nat, w: seq<Byte>) returns (r: Ptr)
    requires buf.Linked() && buf.Points(p, k) && p.chain != null && w != []
    ensures buf.Points(r, k) && r.chain == p.chain && p.pos <= r.pos && r.inChain >= p.inChain
    ensures r.inChain <= p.chain.off == |buf.parts[k]|
    ensures NoneIn(buf.Contents(), p.pos, r.pos, w)
  {
    assert p.chain.Data() == buf.parts[k];
    var s := p.chain.Slice(p.inChain, p.chain.off);
    var i := Memchr(s, w[0]);
    forall j | p.inChain <= j < p.inChain + i ensures buf.parts[k][j] != w[0] {
      assert buf.parts[k][j] == s[j - p.inChain];
    }
    SkipStretch(buf.parts, k, p.inChain, i, w);
    r := Ptr(p.pos + i, p.chain, p.inChain + i);
  }

  /** At the end of a chain, the same position at the start of the next. */
  method NextChain(buf: Evbuffer, p: Ptr, ghost k: nat) returns (r: Ptr, ghost j: nat)
    requires buf.Linked() && buf.Points(p, k) && p.chain != null && p.inChain == p.chain.off
    ensures j == k + 1 && r.pos == p.pos && buf.Points(r, j) && r.inChain == 0
  {
    assert p.chain.Data() == buf.parts[k];
    RunBytes(buf.parts, k);
    r, j := Ptr(p.pos, p.chain.next, 0), k + 1;
  }

  /** The search gives up in the chain that holds the end of its range. */
  lemma PastLastChain(buf: Evbuffer, p: Ptr, k: nat, b: Bound, ke: nat, start: int, w: seq<Byte>)
    requires buf.Linked() && buf.Points(p, k) && k < |buf.parts| && p.inChain == |buf.parts[k]|
    requires b.End? && buf.Points(b.p, ke) && b.p.chain == p.chain && w != []
    requires NoneIn(buf.Contents(), start, p.pos, w)
    ensures NoneWithin(buf.Contents(), start, b.p.pos, w)
  {
    assert ke == k;
  }

  /** The scan of evbuffer_search_range. */
  method Scan(buf: Evbuffer, w: seq<Byte>, start: Ptr, ghost k: nat, b: Bound, ghost ke: nat)
    returns (r: Ptr, ghost j: nat)
    requires buf.Linked() && buf.totalLen == |buf.Contents()| && w != []
    requires buf.Points(start, k) && (b.End? ==> buf.Points(b.p, ke))
    ensures r.pos >= 0 ==> buf.Points(r, j) && r.pos >= start.pos && MatchAt(buf.Contents(), r.pos, w)
    ensures r.pos >= 0 ==> NoneIn(buf.Contents(), start.pos, r.pos, w) && r.pos + |w| <= Limit(b, buf.Contents())
    ensures r.pos < 0 ==> r == NOT_FOUND && NoneWithin(buf.Contents(), start.pos, Limit(b, buf.Contents()), w)
  {
    r, j := start, k;
    var lastChain: Chain? := if b.End? then b.p.chain else null;
    while r.chain != null
      invariant j <= |buf.chains| && buf.Points(r, j) && start.pos <= r.pos
      invariant NoneIn(buf.Contents(), start.pos, r.pos, w)
      decreases |buf.chains| - j, if j < |buf.parts| then |buf.parts[j]| - r.inChain else 0
    {
      var c := Candidate(buf, r, j, w);
      if c.inChain < c.chain.off {
        var equal := PtrMemcmp(buf, c, j, w);
        if equal {
          if b.End? && c.pos + |w| > b.p.pos {
            return NOT_FOUND, 0;
          }
          return c, j;
        }
        r := Ptr(c.pos + 1, c.chain, c.inChain + 1);
        if r.inChain == r.chain.off {
          r, j := NextChain(buf, r, j);
        }
      } else {
        if c.chain == lastChain {
          PastLastChain(buf, c, j, b, ke, start.pos, w);
          return NOT_FOUND, 0;
        }
        r, j := NextChain(buf, c, j);
      }
    }
    AtEnd(buf.parts);
    r := NOT_FOUND;
  }

  /** evbuffer_search_range; evbuffer_search is the case without an end. */
  method SearchRange(buf: Evbuffer, what: seq<Byte>, start: Ptr, ghost k: nat, b: Bound, ghost ke: nat)
    returns (r: Ptr, ghost j: nat)
    requires buf.Linked() && buf.totalLen == |buf.Contents()|
    requires buf.Points(start, k) && (b.End? ==> buf.Points(b.p, ke))
    ensures what == [] || |what| > SSIZE_MAX ==> r == start && j == k
    ensures 0 < |what| <= SSIZE_MAX && r.pos >= 0 ==>
              && buf.Points(r, j) && start.pos <= r.pos && r.pos + |what| <= Limit(b, buf.Contents())
              && MatchAt(buf.Contents(), r.pos, what) && NoneIn(buf.Contents(), start.pos, r.pos, what)
    ensures 0 < |what| <= SSIZE_MAX && r.pos < 0 ==>
              r == NOT_FOUND && NoneWithin(buf.Contents(), start.pos, Limit(b, buf.Contents()), what)
  {
    r, j := start, k;
    if 0 < |what| <= SSIZE_MAX {
      r, j := Scan(buf, what, start, k, b, ke);
    }
  }
}
