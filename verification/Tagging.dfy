/** The loops of libevent's event_tagging.c, on buffers, against the formats of
    TagCodec. */
module Tagging {
  import opened Common
  import opened Bytes
  import opened Evbuffers
  import opened EvbufferQueue
  import opened EvbufferMove
  import opened EvbufferPullup
  import opened TagCodec

  /** Byte strings with the same nibbles are the same. */
  lemma SameNibbles(a: seq<Byte>, b: seq<Byte>)
    requires |a| == |b| && forall p :: 0 <= p < 2 * |a| ==> Nib(a, p) == Nib(b, p)
    ensures a == b
  {
    forall i | 0 <= i < |a| ensures a[i] == b[i] {
      assert Nib(a, 2 * i) == Nib(b, 2 * i) && Nib(a, 2 * i + 1) == Nib(b, 2 * i + 1);
    }
  }

  /** Writing one nibble leaves the others alone. */
  function SetNib(s: seq<Byte>, p: nat, v: nat): (r: seq<Byte>)
    requires p / 2 < |s| && v < 16
    ensures |r| == |s|
    ensures forall q :: 0 <= q < 2 * |s| ==> Nib(r, q) == if q == p then v else Nib(s, q)
  {
    s[p / 2 := if p % 2 == 0 then v * 16 + s[p / 2] % 16 else s[p / 2] / 16 * 16 + v]
  }

  /** The nibbles from the first one on, behind an empty header nibble. */
  ghost predicate Filled(s: seq<Byte>, d: seq<nat>, off: nat) {
    && 1 <= off <= |d| + 1
    && (forall p :: 1 <= p < off && p < 2 * |s| ==> Nib(s, p) == d[p - 1])
    && (forall p :: 0 <= p < 2 * |s| && (p == 0 || off <= p) ==> Nib(s, p) == 0)
  }

  /** The loop of ENCODE_INT_INTERNAL. */
  method FillNibbles(data: array<Byte>, number: nat) returns (off: nat)
    requires |Digits(number)| < 2 * data.Length && forall p :: 0 <= p < 2 * data.Length ==> Nib(data[..], p) == 0
    modifies data
    ensures off == |Digits(number)| + 1 && Filled(data[..], Digits(number), off)
  {
    var n := number;
    ghost var d := Digits(number);
    off := 1;
    while n != 0
      invariant Filled(data[..], d, off) && d[off - 1..] == Digits(n)
      decreases n
    {
      ghost var was := data[..];
      data[off / 2] := if off % 2 == 1 then data[off / 2] / 16 * 16 + n % 16 else data[off / 2] % 16 + n % 16 * 16;
      assert data[..] == SetNib(was, off, n % 16);
      assert d[off - 1..][0] == n % 16 && d[off..] == d[off - 1..][1..];
      n := n / 16;
      off := off + 1;
    }
  }

  /** The bytes filled, with the header nibble set, are the encoding. */
  lemma FilledIsEncoded(s: seq<Byte>, n: nat)
    requires Fits(n, 16) && |Digits(n)| / 2 + 1 <= |s| && Filled(s, Digits(n), |Digits(n)| + 1)
    ensures SetNib(s, 0, CountNibble(|Digits(n)|))[..|Digits(n)| / 2 + 1] == EncodeInt(n)
  {
    var d := Digits(n);
    var ns, bytes := [CountNibble(|d|)] + d, SetNib(s, 0, CountNibble(|d|))[..|d| / 2 + 1];
    forall p | 0 <= p < 2 * |bytes| ensures Nib(bytes, p) == Nib(Pack(ns), p) {
      PackNib(ns, p);
      assert Nib(bytes, p) == Nib(SetNib(s, 0, CountNibble(|d|)), p);
    }
    SameNibbles(bytes, Pack(ns));
  }

  /** ENCODE_INT_INTERNAL for an integer of `size` bytes. */
  method EncodeIntInternal(number: nat, size: nat) returns (bytes: seq<Byte>)
    requires size <= 8 && Fits(number, 2 * size)
    ensures bytes == EncodeInt(number)
  {
    var data := new Byte[size + 1](_ => 0);
    var off := FillNibbles(data, number);
    var nibbles := if off > 2 then off - 2 else 0;
    FilledIsEncoded(data[..], number);
    bytes := Finish(data, nibbles, (off + 1) / 2);
  }

  /** The number of nibbles goes into the first one, and the first n bytes are the encoding. */
  method Finish(data: array<Byte>, nibbles: nat, n: nat) returns (bytes: seq<Byte>)
    requires 0 < data.Length && nibbles < 16 && n <= data.Length
    modifies data
    ensures bytes == SetNib(old(data[..]), 0, nibbles)[..n]
  {
    ghost var was := data[..];
    data[0] := data[0] % 16 + nibbles % 16 * 16;
    assert data[..] == SetNib(was, 0, nibbles);
    bytes := data[..n];
    assert bytes == data[..][..n];
  }

  /** The loop of DECODE_INT_INTERNAL over contiguous bytes. */
  method DecodeNibbles(s: seq<Byte>, k: nat) returns (number: nat)
    requires k / 2 < |s|
    ensures number == ValueFrom(s, 1, k)
  {
    number := 0;
    var nibbles: nat := k;
    while nibbles > 0
      invariant nibbles <= k && number == ValueFrom(s, nibbles + 1, k)
    {
      number := 16 * number + (if nibbles % 2 == 1 then s[nibbles / 2] % 16 else s[nibbles / 2] / 16);
      nibbles := nibbles - 1;
    }
  }

  /** The digits read depend only on the bytes that hold them. */
  lemma {:induction false} ValueLocal(s: seq<Byte>, t: seq<Byte>, i: nat, k: nat)
    requires k / 2 < |s| && k / 2 < |t| && 1 <= i
    requires s[..k / 2 + 1] == t[..k / 2 + 1]
    ensures ValueFrom(s, i, k) == ValueFrom(t, i, k)
    decreases k + 1 - i
  {
    if i <= k {
      assert s[i / 2] == s[..k / 2 + 1][i / 2] == t[i / 2];
      ValueLocal(s, t, i + 1, k);
    }
  }

  /** DECODE_INT_INTERNAL: the integer at `offset`, read without draining. */
  method DecodeIntInternal(buf: Evbuffer, offset: nat, maxNibbles: nat) returns (r: Option<Decoded>)
    requires buf.Valid() && offset <= 5 && 0 < maxNibbles <= 16
    modifies buf, buf.chains
    ensures buf.Valid() && buf.Contents() == old(buf.Contents())
    ensures offset <= |buf.Contents()| ==> r == DecodeInt(buf.Contents()[offset..], maxNibbles)
    ensures offset > |buf.Contents()| ==> r == None
    ensures r.Some? ==> r.value.value < Pow16(maxNibbles)
    ensures forall i :: 0 <= i < |buf.chains| ==> buf.chains[i] in old(buf.chains) || fresh(buf.chains[i])
  {
    if buf.totalLen <= offset {
      return None;
    }
    var head := FirstByteAt(buf, offset);
    var nibbles := head / 16 + 1;
    ghost var s := buf.Contents()[offset..];
    if nibbles > maxNibbles || nibbles / 2 + 1 > buf.totalLen - offset {
      return None;
    }
    var number := NumberAt(buf, offset, nibbles);
    DecodedIntRange(s, maxNibbles);
    r := Some(Decoded(number, nibbles / 2 + 1));
  }

  /** The digits behind the header at `offset`. */
  method NumberAt(buf: Evbuffer, offset: nat, nibbles: nat) returns (number: nat)
    requires buf.Valid() && offset <= 5 && 0 < nibbles <= 16 && offset + nibbles / 2 + 1 <= buf.totalLen
    modifies buf, buf.chains
    ensures buf.Valid() && buf.Contents() == old(buf.Contents())
    ensures number == ValueFrom(buf.Contents()[offset..], 1, nibbles)
    ensures forall i :: 0 <= i < |buf.chains| ==> buf.chains[i] in old(buf.chains) || fresh(buf.chains[i])
  {
    ghost var s := buf.Contents()[offset..];
    var data := BytesAt(buf, offset, nibbles / 2 + 1);
    number := DecodeNibbles(data, nibbles);
    ValueLocal(data, s, 1, nibbles);
  }

  /** Pull up enough to read the byte at `offset`. */
  method FirstByteAt(buf: Evbuffer, offset: nat) returns (b: Byte)
    requires buf.Valid() && offset < buf.totalLen && offset <= 5
    modifies buf, buf.chains
    ensures buf.Valid() && buf.Contents() == old(buf.Contents())
    ensures b == buf.Contents()[offset]
    ensures forall i :: 0 <= i < |buf.chains| ==> buf.chains[i] in old(buf.chains) || fresh(buf.chains[i])
  {
    var bytes := BytesAt(buf, offset, 1);
    b := bytes[0];
  }

  /** Pull up enough to read `n` bytes at `offset`. */
  method BytesAt(buf: Evbuffer, offset: nat, n: nat) returns (bytes: seq<Byte>)
    requires buf.Valid() && 0 < n && offset + n <= buf.totalLen && offset + n <= MAX_CHAIN_MEM
    modifies buf, buf.chains
    ensures buf.Valid() && buf.Contents() == old(buf.Contents())
    ensures bytes == buf.Contents()[offset..offset + n]
    ensures forall i :: 0 <= i < |buf.chains| ==> buf.chains[i] in old(buf.chains) || fresh(buf.chains[i])
  {
    var c := Pullup(buf, offset + n);
    bytes := c.Slice(offset, offset + n);
    assert c.Data()[offset..offset + n] == c.Data()[..offset + n][offset..] == buf.Contents()[offset..offset + n];
  }

  /** A 32-bit tag takes at most five bytes. */
  lemma TagLength(tag: nat)
    requires tag < 0x1_0000_0000
    ensures |EncodeTag(tag)| <= 5
  {
    TagRoundTrip(tag, []);
    DecodedTagRange(EncodeTag(tag) + [], 0);
  }

  /** evtag_encode_tag, up to adding the bytes to a buffer. */
  method EncodeTagBytes(tag: nat) returns (data: seq<Byte>)
    requires tag < 0x1_0000_0000
    ensures data == EncodeTag(tag) && |data| <= 5
  {
    var t, more := tag, true;
    data := [];
    while more
      invariant if more then data + EncodeTag(t) == EncodeTag(tag) else data == EncodeTag(tag)
      decreases more, t
    {
      var lower := t % 128;
      ghost var rest := EncodeTag(t);
      t := t / 128;
      more := t > 0;
      if more {
        lower := lower + 128;
      }
      assert rest == [lower] + if more then EncodeTag(t) else [];
      data := data + [lower];
    }
    TagLength(tag);
  }

  // ----- decoding a tag

  /** `r`, decoded behind bytes worth `number`, the next of which counts `scale`. */
  function Behind(number: nat, scale: nat, r: Option<Decoded>): Option<Decoded> {
    match r
    case None => None
    case Some(d) => Some(Decoded(number + scale * d.value, d.len))
  }

  lemma Regroup(number: nat, scale: nat, b: nat, v: nat)
    ensures number + b * scale + (128 * scale) * v == number + scale * (b + 128 * v)
  {
  }

  /** One byte with its high bit set, worked into what was decoded before it. */
  lemma TagStep(s: seq<Byte>, count: nat, number: nat, scale: nat)
    requires count < |s| && count <= 4 && !(count == 4 && s[4] % 128 > 15) && s[count] >= 128
    ensures Behind(number, scale, DecodeTagFrom(s, count))
         == Behind(number + s[count] % 128 * scale, 128 * scale, DecodeTagFrom(s, count + 1))
  {
    var rest := DecodeTagFrom(s, count + 1);
    if rest.Some? {
      Regroup(number, scale, s[count] % 128, rest.value.value);
    }
  }

  /** The loop of decode_tag_internal, in a buffer of len bytes of which the first five, or
      all, are contiguous.  It reads a sixth byte before it looks at the shift; whatever
      byte lies there decides nothing. */
  method DecodeTagBytes(s: seq<Byte>, len: nat, beyond: Byte) returns (r: Option<Decoded>)
    requires |s| == Min(len, 5)
    ensures r == DecodeTag(s)
  {
    var number: nat, scale: nat, count: nat, shift: nat := 0, 1, 0, 0;
    while count < len
      invariant count <= |s| && shift == 7 * count
      invariant DecodeTag(s) == Behind(number, scale, DecodeTagFrom(s, count))
    {
      var lower := if count < |s| then s[count] else beyond;
      if shift >= 28 {
        if shift > 28 {
          return None;
        }
        if lower % 128 > 15 {
          return None;
        }
      }
      if lower < 128 {
        return Some(Decoded(number + scale * lower, count + 1));
      }
      TagStep(s, count, number, scale);
      number := number + lower % 128 * scale;
      scale, shift, count := 128 * scale, shift + 7, count + 1;
    }
    r := None;
  }

  /** Five bytes decide what a tag is. */
  lemma {:induction false} DecodeTagLocal(s: seq<Byte>, n: nat, i: nat)
    requires n == Min(|s|, 5) && i <= n
    ensures DecodeTagFrom(s, i) == DecodeTagFrom(s[..n], i)
    decreases n - i
  {
    if i < n {
      DecodeTagLocal(s, n, i + 1);
    }
  }

  // ----- on buffers

  /** decode_tag_internal. */
  method DecodeTagInternal(buf: Evbuffer, dodrain: bool) returns (r: Option<Decoded>)
    requires buf.Valid()
    modifies buf, buf.chains
    ensures buf.Valid() && r == DecodeTag(old(buf.Contents()))
    ensures buf.Contents() == if dodrain && r.Some? then old(buf.Contents())[r.value.len..] else old(buf.Contents())
    ensures forall i :: 0 <= i < |buf.chains| ==> buf.chains[i] in old(buf.chains) || fresh(buf.chains[i])
  {
    r := None;
    if buf.totalLen > 0 {
      var data := BytesAt(buf, 0, Min(buf.totalLen, 5));
      DecodeTagLocal(buf.Contents(), |data|, 0);
      var beyond: Byte := *;
      r := DecodeTagBytes(data, buf.totalLen, beyond);
      if dodrain && r.Some? {
        Drain(buf, r.value.len);
        assert r.value.len == |old(buf.Contents())| ==> old(buf.Contents())[r.value.len..] == [];
      }
    }
  }

  /** evtag_decode_int and evtag_decode_int64: the integer at the front, drained. */
  method EvtagDecodeInt(buf: Evbuffer, maxNibbles: nat) returns (r: Option<Decoded>)
    requires buf.Valid() && 0 < maxNibbles <= 16
    modifies buf, buf.chains
    ensures buf.Valid() && r == DecodeInt(old(buf.Contents()), maxNibbles)
    ensures buf.Contents() == if r.Some? then old(buf.Contents())[r.value.len..] else old(buf.Contents())
    ensures forall i :: 0 <= i < |buf.chains| ==> buf.chains[i] in old(buf.chains) || fresh(buf.chains[i])
  {
    assert buf.Contents()[0..] == buf.Contents();
    r := DecodeIntInternal(buf, 0, maxNibbles);
    if r.Some? {
      Drain(buf, r.value.len);
      assert r.value.len == |old(buf.Contents())| ==> old(buf.Contents())[r.value.len..] == [];
    }
  }

  /** A length returned through a C int. */
  function ToInt32(n: nat): (r: int)
    ensures n < 0x1_0000_0000 ==> -0x8000_0000 <= r <= 0x7FFF_FFFF && (r == n || r + 0x1_0000_0000 == n)
  {
    if n < 0x8000_0000 then n else n - 0x1_0000_0000
  }

  /** What is made of the length at the front, and what is left behind it. */
  function LengthResult(s: seq<Byte>): (int, seq<Byte>) {
    match DecodeInt(s, 8)
    case None => (-1, s)
    case Some(l) => (if |s[l.len..]| < l.value then -1 else ToInt32(l.value), s[l.len..])
  }

  /** What evtag_unmarshal_header returns, and what it leaves in the buffer. */
  function HeaderResult(s: seq<Byte>): (int, seq<Byte>) {
    match DecodeTag(s)
    case None => (-1, s)
    case Some(t) => LengthResult(s[t.len..])
  }

  /** The second half of evtag_unmarshal_header. */
  method UnmarshalLength(buf: Evbuffer) returns (len: int)
    requires buf.Valid()
    modifies buf, buf.chains
    ensures buf.Valid() && (len, buf.Contents()) == LengthResult(old(buf.Contents()))
    ensures forall i :: 0 <= i < |buf.chains| ==> buf.chains[i] in old(buf.chains) || fresh(buf.chains[i])
  {
    len := -1;
    var l := EvtagDecodeInt(buf, 8);
    if l.Some? && buf.totalLen >= l.value.value {
      len := ToInt32(l.value.value);
    }
  }

  /** evtag_unmarshal_header. */
  method UnmarshalHeader(buf: Evbuffer) returns (tag: nat, len: int)
    requires buf.Valid()
    modifies buf, buf.chains
    ensures buf.Valid() && (len, buf.Contents()) == HeaderResult(old(buf.Contents()))
    ensures DecodeTag(old(buf.Contents())).Some? ==> tag == DecodeTag(old(buf.Contents())).value.value
    ensures forall i :: 0 <= i < |buf.chains| ==> buf.chains[i] in old(buf.chains) || fresh(buf.chains[i])
  {
    tag, len := 0, -1;
    var t := DecodeTagInternal(buf, true);
    if t.Some? {
      tag := t.value.value;
      len := UnmarshalLength(buf);
    }
  }

  /** For payloads below 2^31 the header read and the record read are the same thing. */
  lemma HeaderOfRecord(s: seq<Byte>)
    ensures Unmarshal(s).Some? && |Unmarshal(s).value.0.payload| < 0x8000_0000 ==>
              && HeaderResult(s).0 == |Unmarshal(s).value.0.payload|
              && HeaderResult(s).1 == Unmarshal(s).value.0.payload + Unmarshal(s).value.1
              && DecodeTag(s).Some? && DecodeTag(s).value.value == Unmarshal(s).value.0.tag
    ensures Unmarshal(s) == None ==> HeaderResult(s).0 == -1
  {
    match PeekHeader(s)
    case None =>
    case Some(h) =>
      var t := DecodeTag(s).value;
      var l := DecodeInt(s[t.len..], 8).value;
      assert s[t.len..][l.len..] == s[h.used..];
      if h.used + h.len <= |s| {
        assert s[h.used..] == s[h.used..h.used + h.len] + s[h.used + h.len..];
      }
  }

  /** Two pieces, one after the other. */
  method AddTwo(buf: Evbuffer, a: seq<Byte>, b: seq<Byte>)
    requires buf.Valid() && buf.totalLen + |a + b| <= SIZE_MAX && |a + b| <= MAX_CHAIN_MEM
    modifies buf, buf.chains
    ensures buf.Valid() && buf.Contents() == old(buf.Contents()) + (a + b)
    ensures forall i :: 0 <= i < |buf.chains| ==> buf.chains[i] in old(buf.chains) || fresh(buf.chains[i])
  {
    ghost var was := buf.Contents();
    var _ := buf.Add(a);
    var _ := buf.Add(b);
    InTwo(was, a, b);
  }

  lemma InTwo(s: seq<Byte>, a: seq<Byte>, b: seq<Byte>)
    ensures s + a + b == s + (a + b)
  {
  }

  /** A record header put at the end: the tag, and the length as a 32-bit number. */
  method AddHeader(buf: Evbuffer, tag: nat, len: nat)
    requires buf.Valid() && tag < 0x1_0000_0000 && len < 0x1_0000_0000 && Fits(len, 8)
    requires buf.totalLen + |EncodeTag(tag) + EncodeInt(len)| <= SIZE_MAX
    modifies buf, buf.chains
    ensures buf.Valid() && buf.Contents() == old(buf.Contents()) + (EncodeTag(tag) + EncodeInt(len))
    ensures forall i :: 0 <= i < |buf.chains| ==> buf.chains[i] in old(buf.chains) || fresh(buf.chains[i])
  {
    var t := EncodeTagBytes(tag);
    var l := EncodeIntInternal(len, 4);
    AddTwo(buf, t, l);
  }

  /** evtag_marshal. */
  method EvtagMarshal(buf: Evbuffer, tag: nat, data: seq<Byte>)
    requires buf.Valid() && tag < 0x1_0000_0000 && |data| < 0x1_0000_0000 && Fits(|data|, 16)
    requires buf.totalLen + |Marshal(Record(tag, data))| <= SIZE_MAX
    modifies buf, buf.chains
    ensures buf.Valid() && buf.Contents() == old(buf.Contents()) + Marshal(Record(tag, data))
    ensures forall i :: 0 <= i < |buf.chains| ==> buf.chains[i] in old(buf.chains) || fresh(buf.chains[i])
  {
    WordFits(|data|);
    AddHeader(buf, tag, |data|);
    var ok := buf.Add(data);
    assert forall h: seq<Byte> :: old(buf.Contents()) + h + data == old(buf.Contents()) + (h + data);
  }

  /** evtag_marshal_int for `size` 4, evtag_marshal_int64 for 8. */
  method EvtagMarshalInt(buf: Evbuffer, tag: nat, n: nat, size: nat)
    requires buf.Valid() && tag < 0x1_0000_0000 && 0 < size <= 8 && Fits(n, 2 * size)
    requires Fits(|EncodeInt(n)|, 16) && buf.totalLen + |Marshal(Record(tag, EncodeInt(n)))| <= SIZE_MAX
    modifies buf, buf.chains
    ensures buf.Valid() && buf.Contents() == old(buf.Contents()) + Marshal(Record(tag, EncodeInt(n)))
    ensures forall i :: 0 <= i < |buf.chains| ==> buf.chains[i] in old(buf.chains) || fresh(buf.chains[i])
  {
    var data := EncodeIntInternal(n, size);
    EvtagMarshal(buf, tag, data);
  }

  /** UnmarshalHeader on one of two buffers. */
  method UnmarshalBeside(src: Evbuffer, dst: Evbuffer) returns (tag: nat, len: int)
    requires src.Valid() && dst.Valid() && Apart(dst, src)
    modifies src, src.chains
    ensures src.Valid() && dst.Valid() && Apart(dst, src)
    ensures (len, src.Contents()) == HeaderResult(old(src.Contents()))
    ensures DecodeTag(old(src.Contents())).Some? ==> tag == DecodeTag(old(src.Contents())).value.value
    ensures forall i :: 0 <= i < |src.chains| ==> src.chains[i] in old(src.chains) || fresh(src.chains[i])
  {
    ghost var ds := dst.chains;
    assert forall i {:trigger ds[i]} :: 0 <= i < |ds| ==> ds[i] in ds;
    tag, len := UnmarshalHeader(src);
  }

  /** Pulling up the payload on one of two buffers. */
  method PayloadBeside(src: Evbuffer, dst: Evbuffer, len: nat) returns (bytes: seq<Byte>)
    requires src.Valid() && dst.Valid() && Apart(dst, src) && len <= src.totalLen && len <= MAX_CHAIN_MEM
    modifies src, src.chains
    ensures src.Valid() && dst.Valid() && Apart(dst, src) && src.Contents() == old(src.Contents())
    ensures bytes == src.Contents()[..len] && src.totalLen == old(src.totalLen)
    ensures forall i :: 0 <= i < |src.chains| ==> src.chains[i] in old(src.chains) || fresh(src.chains[i])
  {
    ghost var ds := dst.chains;
    assert forall i {:trigger ds[i]} :: 0 <= i < |ds| ==> ds[i] in ds;
    bytes := [];
    if len > 0 {
      bytes := BytesAt(src, 0, len);
    }
  }

  /** Draining one of two buffers. */
  method DrainBeside(src: Evbuffer, dst: Evbuffer, len: nat)
    requires src.Valid() && dst.Valid() && Apart(dst, src) && len <= src.totalLen
    modifies src, src.chains
    ensures src.Valid() && dst.Valid() && Apart(dst, src) && src.Contents() == old(src.Contents())[len..]
  {
    ghost var ds := dst.chains;
    assert forall i {:trigger ds[i]} :: 0 <= i < |ds| ==> ds[i] in ds;
    Drain(src, len);
    assert len == |old(src.Contents())| ==> old(src.Contents())[len..] == [];
  }

  /** The payload copied to `dst` and drained. */
  method MovePayload(src: Evbuffer, dst: Evbuffer, len: nat)
    requires src.Valid() && dst.Valid() && Apart(dst, src) && len <= src.totalLen && len <= MAX_CHAIN_MEM
    requires dst.totalLen + len <= SIZE_MAX
    modifies src, dst, src.chains, dst.chains
    ensures src.Valid() && dst.Valid() && Apart(dst, src)
    ensures dst.Contents() == old(dst.Contents() + src.Contents()[..len])
    ensures src.Contents() == old(src.Contents())[len..]
  {
    var bytes := PayloadBeside(src, dst, len);
    AddBeside(dst, src, bytes, dst.Telling(|bytes|, 0));
    DrainBeside(src, dst, len);
  }

  /** evtag_unmarshal.  A length that comes out negative as an int makes the add fail:
      as a size it is more than a chain may hold. */
  method EvtagUnmarshal(src: Evbuffer, dst: Evbuffer) returns (tag: nat, len: int)
    requires src.Valid() && dst.Valid() && Apart(dst, src) && dst.totalLen + src.totalLen <= SIZE_MAX
    modifies src, dst, src.chains, dst.chains
    ensures src.Valid() && dst.Valid() && Apart(dst, src)
    ensures var (n, rest) := HeaderResult(old(src.Contents()));
            if n < 0 then len == -1 && dst.Contents() == old(dst.Contents()) && src.Contents() == rest
            else
              && len == n <= |rest|
              && dst.Contents() == old(dst.Contents()) + rest[..n]
              && src.Contents() == rest[n..]
    ensures DecodeTag(old(src.Contents())).Some? ==> tag == DecodeTag(old(src.Contents())).value.value
  {
    tag, len := UnmarshalBeside(src, dst);
    HeaderShorter(old(src.Contents()));
    if len < 0 {
      len := -1;
    } else {
      MovePayload(src, dst, len);
    }
  }

  /** What a header leaves is a part of what it was read from, and holds the payload. */
  lemma HeaderShorter(s: seq<Byte>)
    ensures |HeaderResult(s).1| <= |s|
    ensures -0x8000_0000 <= HeaderResult(s).0 < 0x8000_0000 && HeaderResult(s).0 <= |HeaderResult(s).1|
  {
    if DecodeTag(s).Some? {
      DecodedIntRange(s[DecodeTag(s).value.len..], 8);
    }
  }

  /** An int used as a size. */
  function AsSize(n: int): (k: nat)
    requires -0x8000_0000 <= n
    ensures n <= 0x7FFF_FFFF ==> 0 <= k <= 0xFFFF_FFFF_FFFF_FFFF && (k == n || k - 0x1_0000_0000_0000_0000 == n)
  {
    if n >= 0 then n else 0x1_0000_0000_0000_0000 + n
  }

  /** evtag_consume: the record at the front drained.  A payload length that is
      negative as an int is a size beyond every buffer. */
  method EvtagConsume(buf: Evbuffer) returns (ok: bool)
    requires buf.Valid()
    modifies buf, buf.chains
    ensures buf.Valid()
    ensures var (n, rest) := HeaderResult(old(buf.Contents()));
            && (ok <==> n != -1)
            && n >= -0x8000_0000
            && buf.Contents() == if !ok then rest else if AsSize(n) < |rest| then rest[AsSize(n)..] else []
    ensures forall i :: 0 <= i < |buf.chains| ==> buf.chains[i] in old(buf.chains) || fresh(buf.chains[i])
  {
    var tag, len;
    tag, len := UnmarshalHeader(buf);
    HeaderShorter(old(buf.Contents()));
    ok := len != -1;
    if ok {
      Drain(buf, AsSize(len));
    }
  }

  /** evtag_peek_length: the whole record's length, as a 32-bit number. */
  method EvtagPeekLength(buf: Evbuffer) returns (r: Option<nat>)
    requires buf.Valid()
    modifies buf, buf.chains
    ensures buf.Valid() && buf.Contents() == old(buf.Contents())
    ensures r == match PeekHeader(buf.Contents())
                 case None => None
                 case Some(h) => Some((h.used + h.len) % 0x1_0000_0000)
    ensures forall i :: 0 <= i < |buf.chains| ==> buf.chains[i] in old(buf.chains) || fresh(buf.chains[i])
  {
    r := None;
    var t := DecodeTagInternal(buf, false);
    if t.Some? {
      DecodedTagRange(buf.Contents(), 0);
      var l := DecodeIntInternal(buf, t.value.len, 8);
      if l.Some? {
        r := Some((l.value.value + l.value.len + t.value.len) % 0x1_0000_0000);
      }
    }
  }

  /** Consuming drains exactly the length peeked at, when the payload is there and is
      below 2^31 bytes. */
  lemma ConsumeDrainsPeek(s: seq<Byte>)
    requires Unmarshal(s).Some? && |Unmarshal(s).value.0.payload| < 0x8000_0000
    ensures var (n, rest) := HeaderResult(s);
            && 0 <= n <= |rest| && PeekHeader(s).Some?
            && |s| - |rest[n..]| == (PeekHeader(s).value.used + PeekHeader(s).value.len) % 0x1_0000_0000
  {
    HeaderOfRecord(s);
    PeekAgrees(s);
    DecodedTagRange(s, 0);
  }

  /** What is left of s behind the header of an integer record: a tag that cannot be read
      stays, and so does a length that cannot be read, or that stands behind another tag. */
  function HeaderLeft(s: seq<Byte>, needTag: nat): (rest: seq<Byte>)
    ensures PeekHeader(s).Some? && PeekHeader(s).value.tag == needTag ==> rest == s[PeekHeader(s).value.used..]
  {
    match DecodeTag(s)
    case None => s
    case Some(t) =>
      if t.value != needTag then s[t.len..]
      else
        assert PeekHeader(s).Some? ==>
          s[t.len..][DecodeInt(s[t.len..], 8).value.len..] == s[PeekHeader(s).value.used..];
        LengthResult(s[t.len..]).1
  }

  /** The length at the front, if so many bytes follow. */
  method LengthAtHand(buf: Evbuffer) returns (len: Option<nat>)
    requires buf.Valid()
    modifies buf, buf.chains
    ensures buf.Valid() && buf.Contents() == LengthResult(old(buf.Contents())).1
    ensures len == AtHand(old(buf.Contents()))
    ensures forall i :: 0 <= i < |buf.chains| ==> buf.chains[i] in old(buf.chains) || fresh(buf.chains[i])
  {
    len := None;
    var l := EvtagDecodeInt(buf, 8);
    if l.Some? && buf.totalLen >= l.value.value {
      len := Some(l.value.value);
    }
  }

  function AtHand(s: seq<Byte>): Option<nat> {
    match DecodeInt(s, 8)
    case None => None
    case Some(l) => if |s[l.len..]| < l.value then None else Some(l.value)
  }

  lemma HeaderAtHand(s: seq<Byte>)
    requires DecodeTag(s).Some?
    ensures var t := DecodeTag(s).value;
      var len := AtHand(s[t.len..]);
      var h := PeekHeader(s);
      && (len.Some? <==> h.Some? && h.value.used + h.value.len <= |s|) && (h.Some? ==> h.value.tag == t.value)
      && (len.Some? ==> len.value == h.value.len && LengthResult(s[t.len..]).1 == s[h.value.used..])
  {
    var t := DecodeTag(s).value;
    var l := DecodeInt(s[t.len..], 8);
    if l.Some? {
      assert s[t.len..][l.value.len..] == s[t.len + l.value.len..];
    }
  }

  /** The header of an integer record: its tag must be the one asked for. */
  method IntHeader(buf: Evbuffer, needTag: nat) returns (len: Option<nat>)
    requires buf.Valid()
    modifies buf, buf.chains
    ensures buf.Valid()
    ensures var s := old(buf.Contents());
            var h := PeekHeader(s);
            && (len.Some? <==> h.Some? && h.value.tag == needTag && h.value.used + h.value.len <= |s|)
            && (len.Some? ==> len.value == h.value.len && buf.Contents() == s[h.value.used..])
    ensures buf.Contents() == HeaderLeft(old(buf.Contents()), needTag)
    ensures forall i :: 0 <= i < |buf.chains| ==> buf.chains[i] in old(buf.chains) || fresh(buf.chains[i])
  {
    len := None;
    ghost var s := buf.Contents();
    var t := DecodeTagInternal(buf, true);
    if t.Some? {
      HeaderAtHand(s);
      if t.value.value == needTag {
        len := LengthAtHand(buf);
      }
    }
  }

  /** The integer at the front, and `len` bytes drained. */
  method IntPayload(buf: Evbuffer, len: nat, maxNibbles: nat) returns (r: Option<nat>)
    requires buf.Valid() && 0 < maxNibbles <= 16 && len <= buf.totalLen
    modifies buf, buf.chains
    ensures buf.Valid() && buf.Contents() == old(buf.Contents())[len..]
    ensures var d := DecodeInt(old(buf.Contents()), maxNibbles);
            r == if d.Some? && d.value.len <= len then Some(d.value.value) else None
    ensures forall i :: 0 <= i < |buf.chains| ==> buf.chains[i] in old(buf.chains) || fresh(buf.chains[i])
  {
    assert buf.Contents()[0..] == buf.Contents();
    var d := DecodeIntInternal(buf, 0, maxNibbles);
    Drain(buf, len);
    assert len == |old(buf.Contents())| ==> old(buf.Contents())[len..] == [];
    r := if d.Some? && d.value.len <= len then Some(d.value.value) else None;
  }

  /** evtag_unmarshal_int for 8 nibbles, evtag_unmarshal_int64 for 16. */
  method EvtagUnmarshalInt(buf: Evbuffer, needTag: nat, maxNibbles: nat) returns (r: Option<nat>)
    requires buf.Valid() && 0 < maxNibbles <= 16
    modifies buf, buf.chains
    ensures buf.Valid()
    ensures match UnmarshalInt(old(buf.Contents()), needTag, maxNibbles)
            case None => r == None
            case Some((n, rest)) => r == Some(n) && buf.Contents() == rest
    // when the header is good the payload is drained, even if it is no integer
    ensures var s := old(buf.Contents());
            var h := PeekHeader(s);
            buf.Contents() == if h.Some? && h.value.tag == needTag && h.value.used + h.value.len <= |s|
              then s[h.value.used + h.value.len..] else HeaderLeft(s, needTag)
    ensures forall i :: 0 <= i < |buf.chains| ==> buf.chains[i] in old(buf.chains) || fresh(buf.chains[i])
  {
    r := None;
    var len := IntHeader(buf, needTag);
    if len.Some? {
      r := IntPayload(buf, len.value, maxNibbles);
    }
  }
}
