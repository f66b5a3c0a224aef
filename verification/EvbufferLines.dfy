/** Finding line ends across chains, and reading lines. */
module EvbufferLines {
  import opened Common
  import opened Bytes
  import opened Evbuffers
  import opened EvbufferQueue
  import opened EvbufferSearch

  const CR: Byte := 13
  const LF: Byte := 10
  const NUL: Byte := 0
  const CHUNK_SZ: nat := 128

  datatype EolStyle = ANY | CRLF | CRLF_STRICT | LF_ONLY | NUL_ONLY

  // ----- what a line end is, on the flat bytes

  /** q is the first place from `lo` on of a byte in `cs`. */
  ghost predicate FirstOf(s: seq<Byte>, lo: nat, q: int, cs: set<Byte>) {
    lo <= q < |s| && s[q] in cs && NoneOf(s, lo, q, cs)
  }

  ghost predicate NoneOf(s: seq<Byte>, lo: nat, hi: int, cs: set<Byte>) {
    forall i :: lo <= i < hi && i < |s| ==> s[i] !in cs
  }

  /** The bytes from q on that are in `cs` are exactly n. */
  ghost predicate RunOf(s: seq<Byte>, q: nat, n: nat, cs: set<Byte>) {
    && q + n <= |s|
    && (forall i :: q <= i < q + n ==> s[i] in cs)
    && (q + n < |s| ==> s[q + n] !in cs)
  }

  /** The first line end from `lo` on lies at `pos` and has `len` bytes. */
  ghost predicate EolAt(s: seq<Byte>, lo: nat, style: EolStyle, pos: int, len: nat) {
    match style
    case ANY => FirstOf(s, lo, pos, {CR, LF}) && RunOf(s, pos, len, {CR, LF})
    case CRLF_STRICT => lo <= pos && len == 2 && MatchAt(s, pos, [CR, LF]) && NoneIn(s, lo, pos, [CR, LF])
    case CRLF =>
      var lf := pos + len - 1;
      && FirstOf(s, lo, lf, {LF})
      && len == if lf > lo && s[lf - 1] == CR then 2 else 1
    case LF_ONLY => FirstOf(s, lo, pos, {LF}) && len == 1
    case NUL_ONLY => FirstOf(s, lo, pos, {NUL}) && len == 1
  }

  ghost predicate NoEol(s: seq<Byte>, lo: nat, style: EolStyle) {
    forall pos, len :: !EolAt(s, lo, style, pos, len)
  }

  /** There is at most one first line end. */
  lemma EolUnique(s: seq<Byte>, lo: nat, style: EolStyle, p: int, n: nat, q: int, m: nat)
    requires EolAt(s, lo, style, p, n) && EolAt(s, lo, style, q, m)
    ensures p == q && n == m
  {
    match style
    case ANY =>
      assert p == q;
    case CRLF =>
      assert p + n == q + m;
    case CRLF_STRICT => 
    case LF_ONLY =>
    case NUL_ONLY =>
  }

  /** What a line end looks like: the line in front of it has no stop byte of the
      style (no CR LF for the strict one), and its own bytes are those of the style. */
  lemma EolShape(s: seq<Byte>, style: EolStyle, pos: int, len: nat)
    requires EolAt(s, 0, style, pos, len)
    ensures 0 <= pos && 0 < len && pos + len <= |s|
    ensures var line, term, rest := s[..pos], s[pos..pos + len], s[pos + len..];
            && s == line + term + rest
            && match style
               case ANY => 13 !in line && 10 !in line && (forall b :: b in term ==> b == 13 || b == 10)
                           && (rest != [] ==> rest[0] != 13 && rest[0] != 10)
               case CRLF =>
                 10 !in line && (term == [13, 10] || (term == [10] && (line != [] ==> line[|line| - 1] != 13)))
               case CRLF_STRICT => term == [13, 10] && NoneIn(line, 0, |line|, term)
               case LF_ONLY => 10 !in line && term == [10]
               case NUL_ONLY => 0 !in line && term == [0]
  {
    if style.CRLF_STRICT? {
      assert s[pos..pos + 2] == [CR, LF];
      forall i | 0 <= i < pos ensures !MatchAt(s[..pos], i, [CR, LF]) {
        assert !MatchAt(s, i, [CR, LF]);
        assert i + 2 <= pos ==> s[..pos][i..i + 2] == s[i..i + 2];
      }
    }
  }

  // ----- the search across chains

  /** find_eol_char: the first CR or LF, looked for 128 bytes at a time. */
  method FindEolChar(s: seq<Byte>) returns (i: nat)
    ensures i <= |s| && NoneOf(s, 0, i, {CR, LF})
    ensures i < |s| ==> s[i] in {CR, LF}
  {
    i := 0;
    while i < |s|
      invariant NoneOf(s, 0, i, {CR, LF})
    {
      var chunk := if i + CHUNK_SZ < |s| then CHUNK_SZ else |s| - i;
      var piece := s[i..i + chunk];
      var cr, lf := Memchr(piece, CR), Memchr(piece, LF);
      var found := Min(cr, lf);
      forall j | i <= j < i + found ensures s[j] !in {CR, LF} { assert s[j] == piece[j - i]; }
      if found < chunk {
        return i + found;
      }
      i := i + CHUNK_SZ;
    }
    i := |s|;
  }

  /** What the scan of one chain says about the whole. */
  lemma ChainScanned(parts: seq<seq<Byte>>, k: nat, i: nat, n: nat, lo: nat, cs: set<Byte>)
    requires k < |parts| && i + n <= |parts[k]| && lo <= Before(parts, k) + i
    requires NoneOf(Flat(parts), lo, Before(parts, k) + i, cs) && NoneOf(parts[k][i..], 0, n, cs)
    ensures Before(parts, k) + i + n <= |Flat(parts)|
    ensures NoneOf(Flat(parts), lo, Before(parts, k) + i + n, cs)
    ensures i + n < |parts[k]| ==> Before(parts, k) + i + n < |Flat(parts)|
    ensures i + n < |parts[k]| && parts[k][i + n] in cs ==> FirstOf(Flat(parts), lo, Before(parts, k) + i + n, cs)
  {
    var base := Before(parts, k);
    RunBytes(parts, k);
    assert i + n < |parts[k]| ==> Flat(parts)[base + (i + n)] == parts[k][i + n];
    forall q | base + i <= q < base + i + n ensures Flat(parts)[q] !in cs {
      assert Flat(parts)[base + (q - base)] == parts[k][q - base] == parts[k][i..][q - base - i];
    }
  }

  /** The scan of one chain: the first stop byte in it, or its end. */
  method ScanChain(buf: Evbuffer, p: Ptr, ghost j: nat, ghost lo: nat, chr: Byte, eolChar: bool) returns (r: Ptr)
    requires buf.Linked() && buf.Points(p, j) && p.chain != null && lo <= p.pos
    requires NoneOf(buf.Contents(), lo, p.pos, if eolChar then {CR, LF} else {chr})
    ensures buf.Points(r, j) && r.chain == p.chain && lo <= r.pos && r.inChain <= r.chain.off == |buf.parts[j]|
    ensures NoneOf(buf.Contents(), lo, r.pos, if eolChar then {CR, LF} else {chr})
    ensures r.inChain < r.chain.off ==> FirstOf(buf.Contents(), lo, r.pos, if eolChar then {CR, LF} else {chr})
  {
    assert p.chain.Data() == buf.parts[j];
    var piece := p.chain.Slice(p.inChain, p.chain.off);
    var i: nat;
    if eolChar { i := FindEolChar(piece); } else { i := Memchr(piece, chr); }
    ChainScanned(buf.parts, j, p.inChain, i, lo, if eolChar then {CR, LF} else {chr});
    r := Ptr(p.pos + i, p.chain, p.inChain + i);
  }

  /** evbuffer_strchr for a single byte, evbuffer_find_eol_char for CR and LF. */
  method FindByte(buf: Evbuffer, start: Ptr, ghost k: nat, chr: Byte, eolChar: bool) returns (r: Ptr, ghost j: nat)
    requires buf.Linked() && buf.Points(start, k)
    ensures var cs := if eolChar then {CR, LF} else {chr};
            && (r.pos >= 0 ==> buf.Points(r, j) && FirstOf(buf.Contents(), start.pos, r.pos, cs))
            && (r.pos >= 0 ==> j < |buf.chains| && r.inChain < |buf.parts[j]|)
            && (r.pos < 0 ==> NoneOf(buf.Contents(), start.pos, |buf.Contents()|, cs))
  {
    ghost var cs := if eolChar then {CR, LF} else {chr};
    r, j := start, k;
    while r.chain != null
      invariant j <= |buf.chains| && buf.Points(r, j) && start.pos <= r.pos
      invariant NoneOf(buf.Contents(), start.pos, r.pos, cs)
      decreases |buf.chains| - j
    {
      r := ScanChain(buf, r, j, start.pos, chr, eolChar);
      if r.inChain < r.chain.off {
        return;
      }
      r, j := NextChain(buf, r, j);
    }
    AtEnd(buf.parts);
    r := NOT_FOUND;
  }

  /** How many bytes of `s`, from its start, are in `cs`. */
  method SpanIn(s: seq<Byte>, cs: set<Byte>) returns (n: nat)
    ensures RunOf(s, 0, n, cs)
  {
    n := 0;
    while n < |s| && s[n] in cs
      invariant n <= |s| && forall i :: 0 <= i < n ==> s[i] in cs
    {
      n := n + 1;
    }
  }

  /** The span of one chain, as a span of the whole. */
  lemma ChainSpanned(parts: seq<seq<Byte>>, k: nat, i: nat, n: nat, lo: nat, cs: set<Byte>)
    requires k < |parts| && i <= |parts[k]| && RunOf(parts[k][i..], 0, n, cs)
    requires lo <= Before(parts, k) + i
    requires Before(parts, k) + i <= |Flat(parts)| && forall q :: lo <= q < Before(parts, k) + i ==>
      Flat(parts)[q] in cs
    ensures Before(parts, k) + i + n <= |Flat(parts)|
    ensures forall q :: lo <= q < Before(parts, k) + i + n ==> Flat(parts)[q] in cs
    ensures i + n < |parts[k]| ==> RunOf(Flat(parts), lo, Before(parts, k) + i + n - lo, cs)
  {
    var base := Before(parts, k);
    RunBytes(parts, k);
    if i + n < |parts[k]| {
      assert Flat(parts)[base + (i + n)] == parts[k][i + n] == parts[k][i..][n];
    }
    forall q | base + i <= q < base + i + n ensures Flat(parts)[q] in cs {
      assert Flat(parts)[base + (q - base)] == parts[k][q - base] == parts[k][i..][q - base - i];
    }
  }

  /** How many CR and LF follow in the chain that r points into. */
  method SpanChain(buf: Evbuffer, r: Ptr, ghost j: nat, ghost lo: nat) returns (n: nat)
    requires buf.Linked() && buf.Points(r, j) && r.chain != null && lo <= r.pos <= |buf.Contents()|
    requires forall q :: lo <= q < r.pos ==> buf.Contents()[q] in {CR, LF}
    ensures r.inChain + n <= r.chain.off && r.pos + n <= |buf.Contents()|
    ensures buf.Points(Ptr(r.pos + n, r.chain, r.inChain + n), j)
    ensures forall q :: lo <= q < r.pos + n ==> buf.Contents()[q] in {CR, LF}
    ensures r.inChain + n < r.chain.off ==> RunOf(buf.Contents(), lo, r.pos + n - lo, {CR, LF})
  {
    assert r.chain.Data() == buf.parts[j];
    n := SpanIn(r.chain.Slice(r.inChain, r.chain.off), {CR, LF});
    ChainSpanned(buf.parts, j, r.inChain, n, lo, {CR, LF});
  }

  /** evbuffer_strspn for CR and LF. */
  method Strspn(buf: Evbuffer, start: Ptr, ghost k: nat) returns (count: nat)
    requires buf.Linked() && buf.Points(start, k)
    ensures RunOf(buf.Contents(), start.pos, count, {CR, LF})
  {
    var r := start;
    ghost var j := k;
    RunBounds(buf.parts, k, start.inChain);
    while r.chain != null
      invariant j <= |buf.chains| && buf.Points(r, j) && start.pos <= r.pos <= |buf.Contents()|
      invariant forall q :: start.pos <= q < r.pos ==> buf.Contents()[q] in {CR, LF}
      decreases |buf.chains| - j
    {
      var n := SpanChain(buf, r, j, start.pos);
      r := Ptr(r.pos + n, r.chain, r.inChain + n);
      if r.inChain < r.chain.off {
        return r.pos - start.pos;
      }
      r, j := NextChain(buf, r, j);
    }
    AtEnd(buf.parts);
    count := r.pos - start.pos;
  }

  /** evbuffer_getchr. */
  method Getchr(buf: Evbuffer, p: Ptr, ghost k: nat) returns (b: Byte)
    requires buf.Linked() && buf.Points(p, k) && k < |buf.parts| && p.inChain < |buf.parts[k]|
    ensures 0 <= p.pos < |buf.Contents()| && b == buf.Contents()[p.pos]
  {
    RunBytes(buf.parts, k);
    assert p.chain.Data() == buf.parts[k];
    assert buf.Contents()[Before(buf.parts, k) + p.inChain] == buf.parts[k][p.inChain];
    b := p.chain.Slice(p.inChain, p.inChain + 1)[0];
  }

  /** The CRLF style: a LF, and the CR in front of it if there is one. */
  method FindCrlf(buf: Evbuffer, start: Ptr, ghost k: nat) returns (r: Ptr, len: nat)
    requires buf.Linked() && buf.totalLen == |buf.Contents()| && buf.Points(start, k)
    ensures r.pos >= 0 ==> EolAt(buf.Contents(), start.pos, CRLF, r.pos, len)
    ensures r.pos < 0 ==> NoneOf(buf.Contents(), start.pos, |buf.Contents()|, {LF})
  {
    ghost var j;
    r, j := FindByte(buf, start, k, LF, false);
    len := 1;
    if r.pos >= 0 && r.pos != start.pos {
      var r2, ok;
      ghost var j2;
      r2, ok, j2 := PtrSubtract(buf, r, j, 1);
      var b := Getchr(buf, r2, j2);
      if b == CR {
        r, len := r2, 2;
      }
    }
  }

  /** No stop byte of a style, no line end. */
  lemma NoStopNoEol(s: seq<Byte>, lo: nat, style: EolStyle)
    requires match style
             case ANY => NoneOf(s, lo, |s|, {CR, LF})
             case CRLF => NoneOf(s, lo, |s|, {LF})
             case CRLF_STRICT => NoneWithin(s, lo, |s|, [CR, LF])
             case LF_ONLY => NoneOf(s, lo, |s|, {LF})
             case NUL_ONLY => NoneOf(s, lo, |s|, {NUL})
    ensures NoEol(s, lo, style)
  {
  }

  /** evbuffer_search_eol. */
  method SearchEol(buf: Evbuffer, start: Ptr, ghost k: nat, style: EolStyle) returns (pos: int, len: nat)
    requires buf.Linked() && buf.totalLen == |buf.Contents()| && buf.Points(start, k)
    ensures pos >= 0 ==> EolAt(buf.Contents(), start.pos, style, pos, len)
    ensures pos < 0 ==> pos == -1 && len == 0 && NoEol(buf.Contents(), start.pos, style)
  {
    var it: Ptr;
    ghost var j: nat;
    match style {
      case ANY =>
        it, j := FindByte(buf, start, k, LF, true);
        len := 0;
        if it.pos >= 0 {
          len := Strspn(buf, it, j);
        }
      case CRLF_STRICT =>
        it, j := SearchRange(buf, [CR, LF], start, k, NoEnd, 0);
        len := 2;
      case CRLF =>
        it, len := FindCrlf(buf, start, k);
      case LF_ONLY =>
        it, j := FindByte(buf, start, k, LF, false);
        len := 1;
      case NUL_ONLY =>
        it, j := FindByte(buf, start, k, NUL, false);
        len := 1;
    }
    pos := it.pos;
    if pos < 0 {
      NoStopNoEol(buf.Contents(), start.pos, style);
      pos, len := -1, 0;
    }
  }

  datatype Line = NoLine | Line(bytes: seq<Byte>)

  /** The line is removed, and its terminator drained. */
  method TakeLine(buf: Evbuffer, n: nat, extraDrain: nat) returns (bytes: seq<Byte>)
    requires buf.Valid() && n + extraDrain <= |buf.Contents()|
    modifies buf, buf.chains
    ensures buf.Valid() && bytes == old(buf.Contents())[..n] && buf.Contents() == old(buf.Contents())[n + extraDrain..]
    ensures forall i :: 0 <= i < |buf.chains| ==> buf.chains[i] in old(buf.chains)
  {
    ghost var all := buf.Contents();
    bytes := Remove(buf, n);
    assert buf.Contents() == all[n..] && all[n..][extraDrain..] == all[n + extraDrain..] by {
      assert all[|bytes|..] == buf.Contents();
    }
    Drain(buf, extraDrain);
  }

  /** evbuffer_readln: the bytes in front of the first line end, which is drained with
      them. */
  method Readln(buf: Evbuffer, style: EolStyle) returns (line: Line, ghost len: nat)
    requires buf.Valid()
    modifies buf, buf.chains
    ensures buf.Valid()
    ensures line.NoLine? ==> NoEol(old(buf.Contents()), 0, style) && buf.Contents() == old(buf.Contents())
    ensures line.Line? ==>
              && EolAt(old(buf.Contents()), 0, style, |line.bytes|, len)
              && |line.bytes| + len <= |old(buf.Contents())|
              && line.bytes == old(buf.Contents())[..|line.bytes|]
              && buf.Contents() == old(buf.Contents())[|line.bytes| + len..]
    ensures forall i :: 0 <= i < |buf.chains| ==> buf.chains[i] in old(buf.chains)
  {
    var start := Start(buf);
    var pos, extraDrain := SearchEol(buf, start, 0, style);
    line, len := NoLine, extraDrain;
    if pos >= 0 {
      EolShape(buf.Contents(), style, pos, extraDrain);
      var bytes := TakeLine(buf, pos, extraDrain);
      line := Line(bytes);
    }
  }
}
