/** The integer, tag and record formats of libevent's tagged wire codec, as functions on
    byte strings, and their round trips. */
module TagCodec {
  import opened Common
  import opened Bytes

  // ----- integers: a nibble with the number of digits less one, then the digits,
  // ----- least significant first

  /** The hexadecimal digits of n, least significant first; none for 0. */
  function Digits(n: nat): (d: seq<nat>)
    ensures forall i :: 0 <= i < |d| ==> d[i] < 16
  {
    if n == 0 then [] else [n % 16] + Digits(n / 16)
  }

  /** Nibbles in pairs, the first one high; a last single one is padded with 0. */
  function Pack(ns: seq<nat>): (s: seq<Byte>)
    requires forall i :: 0 <= i < |ns| ==> ns[i] < 16
    ensures |s| == (|ns| + 1) / 2
  {
    if ns == [] then []
    else if |ns| == 1 then [ns[0] * 16]
    else [ns[0] * 16 + ns[1]] + Pack(ns[2..])
  }

  /** The nibble at place i of a byte string. */
  function Nib(s: seq<Byte>, i: nat): (n: nat)
    requires i / 2 < |s|
    ensures n < 16
  {
    if i % 2 == 0 then s[i / 2] / 16 else s[i / 2] % 16
  }

  lemma {:induction false} PackNib(ns: seq<nat>, i: nat)
    requires forall k :: 0 <= k < |ns| ==> ns[k] < 16
    requires i / 2 < |Pack(ns)|
    ensures Nib(Pack(ns), i) == if i < |ns| then ns[i] else 0
  {
    if i >= 2 {
      PackNib(ns[2..], i - 2);
      assert Pack(ns)[i / 2] == Pack(ns[2..])[(i - 2) / 2];
    }
  }

  /** The header nibble for that many digits. */
  function CountNibble(k: nat): nat {
    if k == 0 then 0 else k - 1
  }

  predicate Fits(n: nat, maxNibbles: nat) {
    |Digits(n)| <= maxNibbles <= 16
  }

  function EncodeInt(n: nat): (s: seq<Byte>)
    requires Fits(n, 16)
    ensures |s| == |Digits(n)| / 2 + 1
  {
    Pack([CountNibble(|Digits(n)|)] + Digits(n))
  }

  /** The value of the digits at places i..k of a byte string. */
  function ValueFrom(s: seq<Byte>, i: nat, k: nat): nat
    requires k / 2 < |s|
    decreases k + 1 - i
  {
    if i > k then 0 else Nib(s, i) + 16 * ValueFrom(s, i + 1, k)
  }

  /** A decoded value and the number of bytes it took. */
  datatype Decoded = Decoded(value: nat, len: nat)

  function DecodeInt(s: seq<Byte>, maxNibbles: nat): (r: Option<Decoded>)
    ensures r.Some? ==> 0 < r.value.len <= |s|
  {
    if s == [] then None
    else
      var nibbles := s[0] / 16 + 1;
      if nibbles > maxNibbles || nibbles / 2 + 1 > |s| then None
      else Some(Decoded(ValueFrom(s, 1, nibbles), nibbles / 2 + 1))
  }

  /** Digits that lie at places i.. of `s`, followed by zeros up to k, have that value. */
  lemma {:induction false} ValueOfDigits(s: seq<Byte>, n: nat, i: nat, k: nat)
    requires k / 2 < |s| && i + |Digits(n)| <= k + 1
    requires forall p :: i <= p < i + |Digits(n)| ==> Nib(s, p) == Digits(n)[p - i]
    requires forall p :: i + |Digits(n)| <= p <= k ==> Nib(s, p) == 0
    ensures ValueFrom(s, i, k) == n
    decreases k + 1 - i
  {
    if i <= k {
      if n == 0 {
        assert Nib(s, i) == 0;
        ValueOfDigits(s, 0, i + 1, k);
      } else {
        assert Nib(s, i) == n % 16;
        ValueOfDigits(s, n / 16, i + 1, k);
      }
    }
  }

  /** Decoding an encoded integer gives it back, and takes just its encoding, whatever
      follows. */
  lemma IntRoundTrip(n: nat, suffix: seq<Byte>, maxNibbles: nat)
    requires Fits(n, maxNibbles) && 0 < maxNibbles
    ensures DecodeInt(EncodeInt(n) + suffix, maxNibbles) == Some(Decoded(n, |EncodeInt(n)|))
  {
    var d := Digits(n);
    var ns := [CountNibble(|d|)] + d;
    var e, s := EncodeInt(n), EncodeInt(n) + suffix;
    var nibbles := CountNibble(|d|) + 1;
    PackNib(ns, 0);
    assert s[0] == e[0] && s[0] / 16 == ns[0];
    forall i | i / 2 < |e| && 1 <= i ensures Nib(s, i) == if i < |ns| then ns[i] else 0 {
      PackNib(ns, i);
      assert s[i / 2] == e[i / 2];
    }
    assert forall p :: 1 <= p < 1 + |d| ==> ns[p] == d[p - 1];
    ValueOfDigits(s, n, 1, nibbles);
  }

  function Pow16(k: nat): (p: nat)
    ensures p > 0
  {
    if k == 0 then 1 else 16 * Pow16(k - 1)
  }

  /** k digits are enough exactly for the numbers below 16 to the k. */
  lemma {:induction false} DigitsBound(n: nat, k: nat)
    ensures |Digits(n)| <= k <==> n < Pow16(k)
  {
    if k > 0 && n > 0 {
      DigitsBound(n / 16, k - 1);
    }
  }

  /** 32-bit numbers have at most 8 digits, 64-bit ones 16. */
  lemma WordFits(n: nat)
    ensures n < 0x1_0000_0000 <==> Fits(n, 8)
    ensures n < 0x1_0000_0000_0000_0000 <==> Fits(n, 16)
    ensures Pow16(8) == 0x1_0000_0000
  {
    DigitsBound(n, 8);
    DigitsBound(n, 16);
    assert Pow16(8) == 0x1_0000_0000;
    assert Pow16(16) == Pow16(8) * Pow16(8);
  }

  lemma {:induction false} DigitAt(n: nat, i: nat)
    requires i < |Digits(n)|
    ensures Digits(n)[i] == n / Pow16(i) % 16
    decreases i
  {
    if i > 0 {
      DigitAt(n / 16, i - 1);
      DividedTwice(n, 16, Pow16(i - 1));
    }
  }

  /** The bytes of an integer: the high half of the first one says the number of digits less
      one, without leading zeros.  The digits follow, the least significant first: that one in
      the low half of the same byte, then two to a byte, the high half first. */
  lemma IntFormat(n: nat, i: nat)
    requires Fits(n, 16) && i <= EncodeInt(n)[0] / 16
    ensures var e, last := EncodeInt(n), EncodeInt(n)[0] / 16;
      n < Pow16(last + 1) && (last > 0 ==> Pow16(last) <= n) && |e| == (last + 1) / 2 + 1
    ensures Nib(EncodeInt(n), i + 1) == n / Pow16(i) % 16
  {
    var d := Digits(n);
    HeaderNibble(n);
    DigitsBound(n, |d|);
    if |d| > 0 { DigitsBound(n, |d| - 1); }
    PackNib([CountNibble(|d|)] + d, i + 1);
    if i < |d| { DigitAt(n, i); }
  }

  lemma HeaderNibble(n: nat)
    requires Fits(n, 16)
    ensures EncodeInt(n)[0] / 16 == CountNibble(|Digits(n)|)
  {
    PackNib([CountNibble(|Digits(n)|)] + Digits(n), 0);
  }

  /** A value of so many nibbles fits that many: the shifts lose nothing. */
  lemma {:induction false} ValueBound(s: seq<Byte>, i: nat, k: nat)
    requires k / 2 < |s| && i <= k + 1
    ensures ValueFrom(s, i, k) < Pow16(k + 1 - i)
    decreases k + 1 - i
  {
    if i <= k {
      ValueBound(s, i + 1, k);
    }
  }

  lemma {:induction false} ValueNib(s: seq<Byte>, i: nat, k: nat, j: nat)
    requires k / 2 < |s| && i <= j <= k
    ensures ValueFrom(s, i, k) / Pow16(j - i) % 16 == Nib(s, j)
    decreases j - i
  {
    if i < j {
      ValueNib(s, i + 1, k, j);
      DividedTwice(ValueFrom(s, i, k), 16, Pow16(j - i - 1));
      Divided(16, ValueFrom(s, i + 1, k), Nib(s, i));
    }
  }

  /** Just those bytes are refused that announce too many digits, or more than there are; the
      value has the digits announced, wherever the number came from. */
  lemma DecodedInt(s: seq<Byte>, maxNibbles: nat, i: nat)
    requires s != [] && i <= s[0] / 16
    ensures DecodeInt(s, maxNibbles).None? <==> s[0] / 16 >= maxNibbles || (s[0] / 16 + 1) / 2 >= |s|
    ensures DecodeInt(s, maxNibbles).Some? ==>
      DecodeInt(s, maxNibbles).value.len == (s[0] / 16 + 1) / 2 + 1
      && DecodeInt(s, maxNibbles).value.value < Pow16(s[0] / 16 + 1)
      && DecodeInt(s, maxNibbles).value.value / Pow16(i) % 16 == Nib(s, i + 1)
  {
    if DecodeInt(s, maxNibbles).Some? {
      ValueNib(s, 1, s[0] / 16 + 1, i + 1);
      ValueBound(s, 1, s[0] / 16 + 1);
    }
  }

  lemma {:induction false} Pow16Grows(a: nat, b: nat)
    requires a <= b
    ensures Pow16(a) <= Pow16(b)
    decreases b
  {
    if a < b {
      Pow16Grows(a, b - 1);
    }
  }

  /** A decoded integer fits the type it is decoded into. */
  lemma DecodedIntRange(s: seq<Byte>, maxNibbles: nat)
    ensures DecodeInt(s, maxNibbles).Some? ==> DecodeInt(s, maxNibbles).value.value < Pow16(maxNibbles)
    ensures Pow16(8) == 0x1_0000_0000
  {
    if DecodeInt(s, maxNibbles).Some? {
      ValueBound(s, 1, s[0] / 16 + 1);
      Pow16Grows(s[0] / 16 + 1, maxNibbles);
    }
    WordFits(0);
  }

  // ----- tags: seven bits a byte, least significant first, the high bit set on all
  // ----- bytes but the last

  function EncodeTag(n: nat): (s: seq<Byte>)
    ensures s != []
  {
    if n < 128 then [n] else [n % 128 + 128] + EncodeTag(n / 128)
  }

  /** Decode from byte i on; the fifth byte may only hold four bits, and no sixth is
      accepted. */
  function DecodeTagFrom(s: seq<Byte>, i: nat): (r: Option<Decoded>)
    requires i <= |s|
    ensures r.Some? ==> i < r.value.len <= |s|
    decreases |s| - i
  {
    if i == |s| || i > 4 || (i == 4 && s[4] % 128 > 15) then None
    else if s[i] < 128 then Some(Decoded(s[i], i + 1))
    else
      match DecodeTagFrom(s, i + 1)
      case None => None
      case Some(d) => Some(Decoded(s[i] % 128 + 128 * d.value, d.len))
  }

  function DecodeTag(s: seq<Byte>): Option<Decoded> {
    DecodeTagFrom(s, 0)
  }

  /** What is left of 32 bits after i groups of seven. */
  function TagRange(i: nat): nat {
    if i == 0 then 0x1_0000_0000 else TagRange(i - 1) / 128
  }

  function Pow128(k: nat): (p: nat)
    ensures p > 0
  {
    if k == 0 then 1 else 128 * Pow128(k - 1)
  }

  /** The bytes of a tag: seven bits in each, the least significant first, without leading
      zeros, and the high bit on all but the last. */
  lemma {:induction false} TagFormat(n: nat, i: nat)
    requires i < |EncodeTag(n)|
    ensures EncodeTag(n)[i] % 128 == n / Pow128(i) % 128
    ensures EncodeTag(n)[i] >= 128 <==> i < |EncodeTag(n)| - 1
    ensures n < Pow128(|EncodeTag(n)|) && (|EncodeTag(n)| > 1 ==> Pow128(|EncodeTag(n)| - 1) <= n)
    decreases n
  {
    if n >= 128 {
      TagFormat(n / 128, if i == 0 then 0 else i - 1);
      if i > 0 { DividedTwice(n, 128, Pow128(i - 1)); }
    }
  }

  /** The head of event_tagging.c gives the bytes 82 66 for the tag 0x166, high bits first. */
  lemma NotAsDocumented()
    ensures EncodeTag(0x166) == [0xE6, 0x02] && DecodeTag([0x82, 0x66]) == Some(Decoded(0x3302, 2))
  {
    assert EncodeTag(0x166) == [0x66 + 128] + EncodeTag(2);
    assert DecodeTagFrom([0x82, 0x66], 1) == Some(Decoded(0x66, 2));
  }

  /** The bytes from i to k are a tag: the last is the first without the high bit, and there
      are no more than 32 bits. */
  predicate IsTag(s: seq<Byte>, i: nat, k: nat) {
    && i <= k <= 4 && k < |s| && (forall j :: i <= j < k ==> s[j] >= 128) && s[k] < 128
    && (k == 4 ==> s[4] <= 15)
  }

  /** Just these are accepted, also with leading zeros, and the value has their bits. */
  lemma {:induction false} DecodedTag(s: seq<Byte>, i: nat, k: nat)
    requires i <= |s|
    ensures IsTag(s, i, k) ==> DecodeTagFrom(s, i).Some? && DecodeTagFrom(s, i).value.len == k + 1
    ensures DecodeTagFrom(s, i).Some? ==> IsTag(s, i, DecodeTagFrom(s, i).value.len - 1)
    decreases |s| - i
  {
    if i < |s| && i <= 4 {
      DecodedTag(s, i + 1, k);
    }
  }

  /** Seven bits more at the low end. */
  lemma BitsMore(b: nat, v: nat, j: nat)
    requires b < 128
    ensures (b + 128 * v) / Pow128(j) % 128 == if j == 0 then b else v / Pow128(j - 1) % 128
  {
    Divided(128, v, b);
    if j > 0 {
      DividedTwice(b + 128 * v, 128, Pow128(j - 1));
    }
  }

  lemma {:induction false} DecodedTagBits(s: seq<Byte>, i: nat, j: nat)
    requires i <= |s| && DecodeTagFrom(s, i).Some? && i <= j < DecodeTagFrom(s, i).value.len
    ensures DecodeTagFrom(s, i).value.value / Pow128(j - i) % 128 == s[j] % 128
    ensures DecodeTagFrom(s, i).value.value < Pow128(DecodeTagFrom(s, i).value.len - i)
    decreases |s| - i
  {
    if s[i] >= 128 {
      DecodedTagBits(s, i + 1, if j == i then i + 1 else j);
      BitsMore(s[i] % 128, DecodeTagFrom(s, i + 1).value.value, j - i);
    } else {
      BitsMore(s[i], 0, 0);
    }
  }

  lemma {:induction false} TagRoundTripFrom(n: nat, prefix: seq<Byte>, suffix: seq<Byte>)
    requires |prefix| <= 4 && n < TagRange(|prefix|)
    ensures DecodeTagFrom(prefix + EncodeTag(n) + suffix, |prefix|) == Some(Decoded(n, |prefix| + |EncodeTag(n)|))
    decreases n
  {
    var i, s := |prefix|, prefix + EncodeTag(n) + suffix;
    assert s[i] == EncodeTag(n)[0];
    TagRanges();
    if n >= 128 {
      var prefix' := prefix + [EncodeTag(n)[0]];
      TagRoundTripFrom(n / 128, prefix', suffix);
      assert prefix' + EncodeTag(n / 128) + suffix == s;
    }
  }

  lemma TagRanges()
    ensures TagRange(1) == 0x200_0000 && TagRange(2) == 0x4_0000 && TagRange(3) == 0x800 && TagRange(4) == 16
  {
    assert TagRange(1) == TagRange(0) / 128;
    assert TagRange(2) == TagRange(1) / 128;
    assert TagRange(3) == TagRange(2) / 128;
  }

  /** Decoding an encoded 32-bit tag gives it back, whatever follows. */
  lemma TagRoundTrip(n: nat, suffix: seq<Byte>)
    requires n < 0x1_0000_0000
    ensures DecodeTag(EncodeTag(n) + suffix) == Some(Decoded(n, |EncodeTag(n)|))
  {
    TagRoundTripFrom(n, [], suffix);
    assert [] + EncodeTag(n) + suffix == EncodeTag(n) + suffix;
  }

  /** A decoded tag is a 32-bit number, and takes at most five bytes. */
  lemma {:induction false} DecodedTagRange(s: seq<Byte>, i: nat)
    requires i <= |s|
    ensures DecodeTagFrom(s, i).Some? ==>
      i <= 4 && DecodeTagFrom(s, i).value.value < TagRange(i) && DecodeTagFrom(s, i).value.len <= 5
    decreases |s| - i
  {
    TagRanges();
    if i < |s| && i <= 4 {
      DecodedTagRange(s, i + 1);
    }
  }

  // ----- records: tag, payload length, payload

  datatype Record = Record(tag: nat, payload: seq<Byte>)

  predicate Sendable(r: Record) {
    r.tag < 0x1_0000_0000 && |r.payload| < 0x8000_0000
  }

  function Marshal(r: Record): (s: seq<Byte>)
    requires Fits(|r.payload|, 16)
  {
    EncodeTag(r.tag) + EncodeInt(|r.payload|) + r.payload
  }

  /** A record header: tag, payload length, and the bytes it takes. */
  datatype Header = Header(tag: nat, len: nat, used: nat)

  /** evtag_peek_length's view: tag and length, present or not the payload. */
  function PeekHeader(s: seq<Byte>): (r: Option<Header>)
    ensures r.Some? ==> r.value.used <= |s|
  {
    match DecodeTag(s)
    case None => None
    case Some(t) =>
      match DecodeInt(s[t.len..], 8)
      case None => None
      case Some(l) => Some(Header(t.value, l.value, t.len + l.len))
  }

  /** One record off the front. */
  function Unmarshal(s: seq<Byte>): (r: Option<(Record, seq<Byte>)>)
    ensures r.Some? ==> |r.value.1| < |s|
  {
    match PeekHeader(s)
    case None => None
    case Some(h) =>
      if h.used + h.len > |s| then None
      else
        assert h.used > 0 by { assert DecodeTag(s).Some?; }
        Some((Record(h.tag, s[h.used..h.used + h.len]), s[h.used + h.len..]))
  }

  lemma HeaderRoundTrip(tag: nat, len: nat, suffix: seq<Byte>)
    requires tag < 0x1_0000_0000 && len < 0x1_0000_0000
    ensures Fits(len, 16)
    ensures var head := EncodeTag(tag) + EncodeInt(len); PeekHeader(head + suffix) == Some(Header(tag, len, |head|))
  {
    WordFits(len);
    var t, l := EncodeTag(tag), EncodeInt(len);
    assert t + l + suffix == t + (l + suffix);
    TagRoundTrip(tag, l + suffix);
    assert (t + l + suffix)[|t|..] == l + suffix;
    IntRoundTrip(len, suffix, 8);
  }

  /** Unmarshalling a marshalled record gives it back, and what follows it. */
  lemma RecordRoundTrip(r: Record, suffix: seq<Byte>)
    requires Sendable(r)
    ensures Fits(|r.payload|, 16)
    ensures Unmarshal(Marshal(r) + suffix) == Some((r, suffix))
  {
    HeaderRoundTrip(r.tag, |r.payload|, r.payload + suffix);
    var head := EncodeTag(r.tag) + EncodeInt(|r.payload|);
    var s := Marshal(r) + suffix;
    assert s == head + (r.payload + suffix);
    assert s[|head|..|head| + |r.payload|] == r.payload;
    assert s[|head| + |r.payload|..] == suffix;
  }

  function MarshalAll(rs: seq<Record>): seq<Byte>
    requires forall i :: 0 <= i < |rs| ==> Sendable(rs[i])
  {
    if rs == [] then [] else
      assert Sendable(rs[0]);
      WordFits(|rs[0].payload|);
      Marshal(rs[0]) + MarshalAll(rs[1..])
  }

  function UnmarshalAll(s: seq<Byte>): Option<seq<Record>>
    decreases |s|
  {
    if s == [] then Some([]) else
      match Unmarshal(s)
      case None => None
      case Some((r, rest)) =>
        match UnmarshalAll(rest)
        case None => None
        case Some(rs) => Some([r] + rs)
  }

  /** One record in front of a list. */
  lemma UnmarshalMore(s: seq<Byte>, r: Record, rest: seq<Byte>, rs: seq<Record>)
    requires Unmarshal(s) == Some((r, rest)) && UnmarshalAll(rest) == Some(rs)
    ensures UnmarshalAll(s) == Some([r] + rs)
  {
  }

  /** A list of records sent one after the other is read back as that list. */
  lemma {:induction false} ListRoundTrip(rs: seq<Record>)
    requires forall i :: 0 <= i < |rs| ==> Sendable(rs[i])
    ensures UnmarshalAll(MarshalAll(rs)) == Some(rs)
  {
    if rs != [] {
      WordFits(|rs[0].payload|);
      RecordRoundTrip(rs[0], MarshalAll(rs[1..]));
      ListRoundTrip(rs[1..]);
      UnmarshalMore(MarshalAll(rs), rs[0], MarshalAll(rs[1..]), rs[1..]);
      assert rs == [rs[0]] + rs[1..];
    }
  }

  /** Where unmarshalling a record succeeds, the bytes it takes are those a peek at
      the header announces. */
  lemma PeekAgrees(s: seq<Byte>)
    ensures Unmarshal(s).Some? ==>
              PeekHeader(s).Some? && |s| - |Unmarshal(s).value.1| == PeekHeader(s).value.used + PeekHeader(s).value.len
  {
  }

  // ----- integer records: the payload is an encoded integer

  /** evtag_unmarshal_int(64): the record's tag must be the one asked for, and the
      integer, read without regard to the payload's end, must not reach past it. */
  function UnmarshalInt(s: seq<Byte>, needTag: nat, maxNibbles: nat): Option<(nat, seq<Byte>)> {
    match PeekHeader(s)
    case None => None
    case Some(h) =>
      if h.tag != needTag || h.used + h.len > |s| then None
      else
        match DecodeInt(s[h.used..], maxNibbles)
        case None => None
        case Some(d) => if d.len > h.len then None else Some((d.value, s[h.used + h.len..]))
  }

  lemma IntRecordRoundTrip(tag: nat, n: nat, suffix: seq<Byte>, maxNibbles: nat)
    requires tag < 0x1_0000_0000 && 0 < maxNibbles && Fits(n, maxNibbles)
    ensures Fits(|EncodeInt(n)|, 16)
    ensures UnmarshalInt(Marshal(Record(tag, EncodeInt(n))) + suffix, tag, maxNibbles) == Some((n, suffix))
  {
    var p := EncodeInt(n);
    HeaderRoundTrip(tag, |p|, p + suffix);
    var head := EncodeTag(tag) + EncodeInt(|p|);
    var s := Marshal(Record(tag, p)) + suffix;
    assert s == head + (p + suffix);
    assert s[|head|..] == p + suffix;
    assert s[|head| + |p|..] == suffix;
    IntRoundTrip(n, suffix, maxNibbles);
  }
}
