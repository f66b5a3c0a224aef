/** libevent's ARC4 generator: its state stays a permutation and is never lost, and its
    bounded numbers are without modulo bias. */
module Arc4 {
  import opened Common

  const SIZE := 256

  type Octet = x: int | 0 <= x < 256

  function Wrap(x: int): Octet { x % 256 }

  /** The table holds every octet once. */
  ghost predicate Permutation(s: seq<Octet>) {
    |s| == SIZE && forall i, j :: 0 <= i < j < |s| ==> s[i] != s[j]
  }

  ghost function Values(s: seq<Octet>, n: nat): set<Octet>
    requires n <= |s|
  {
    set k | 0 <= k < n :: s[k]
  }

  lemma {:induction false} DistinctCount(s: seq<Octet>, n: nat)
    requires n <= |s| && forall i, j :: 0 <= i < j < |s| ==> s[i] != s[j]
    ensures |Values(s, n)| == n
    decreases n
  {
    if n > 0 {
      DistinctCount(s, n - 1);
      assert Values(s, n) == Values(s, n - 1) + {s[n - 1]};
    }
  }

  /** The octets below n. */
  ghost function Upto(n: nat): (u: set<Octet>)
    requires n <= SIZE
    ensures |u| == n && forall x: Octet {:trigger x in u} :: x in u <==> x < n
  {
    if n == 0 then {} else Upto(n - 1) + {n - 1}
  }

  lemma Full(a: set<Octet>, b: set<Octet>)
    requires a <= b && |a| == |b|
    ensures a == b
  {
    if a != b {
      var x :| x in b && x !in a;
      var rest := b - {x};
      assert a <= rest;
      Smaller(a, rest);
    }
  }

  lemma {:induction false} Smaller(a: set<Octet>, b: set<Octet>)
    requires a <= b
    ensures |a| <= |b|
    decreases a
  {
    if a != {} {
      var x :| x in a;
      Smaller(a - {x}, b - {x});
    }
  }

  /** No octet is missing from a permutation. */
  lemma EveryOctet(s: seq<Octet>, x: Octet)
    requires Permutation(s)
    ensures exists k :: 0 <= k < SIZE && s[k] == x
  {
    DistinctCount(s, SIZE);
    assert Values(s, SIZE) <= Upto(SIZE);
    Full(Values(s, SIZE), Upto(SIZE));
    assert x in Values(s, SIZE);
  }

  // ----- the state as a value

  datatype Stream = Stream(i: Octet, j: Octet, s: seq<Octet>)

  function Swap(s: seq<Octet>, i: Octet, j: Octet): seq<Octet>
    requires |s| == SIZE
  {
    s[i := s[j]][j := s[i]]
  }

  /** One step with `key` mixed in; drawing a byte mixes in nothing. */
  function Step(r: Stream, key: Octet): Stream
    requires |r.s| == SIZE
  {
    var i := Wrap(r.i + 1);
    var j := Wrap(r.j + r.s[i] + key);
    Stream(i, j, Swap(r.s, i, j))
  }

  lemma StepKeeps(r: Stream, key: Octet)
    requires Permutation(r.s)
    ensures Permutation(Step(r, key).s)
  {
    var t := Step(r, key);
    forall a, b | 0 <= a < b < SIZE ensures t.s[a] != t.s[b] {
      assert t.s[a] == r.s[if a == t.i then t.j else if a == t.j then t.i else a];
      assert t.s[b] == r.s[if b == t.i then t.j else if b == t.j then t.i else b];
    }
  }

  /** The state before a step, from the state after it. */
  function Unstep(r: Stream, key: Octet): Stream
    requires |r.s| == SIZE
  {
    var s := Swap(r.s, r.i, r.j);
    Stream(Wrap(r.i - 1), Wrap(r.j - s[r.i] - key), s)
  }

  /** A step loses nothing: different states stay different. */
  lemma StepRoundTrip(r: Stream, key: Octet)
    requires |r.s| == SIZE
    ensures Unstep(Step(r, key), key) == r
  {
    var t := Step(r, key);
    assert Swap(t.s, t.i, t.j) == r.s;
  }

  /** The states of arc4_addrandom, from its n-th round on. */
  function Mixed(r: Stream, dat: seq<Octet>, n: nat): (t: Stream)
    requires |r.s| == SIZE && dat != [] && n <= SIZE
    ensures |t.s| == SIZE
    decreases SIZE - n
  {
    if n == SIZE then r else Mixed(Step(r, dat[n % |dat|]), dat, n + 1)
  }

  lemma {:induction false} MixedKeeps(r: Stream, dat: seq<Octet>, n: nat)
    requires Permutation(r.s) && dat != [] && n <= SIZE
    ensures Permutation(Mixed(r, dat, n).s)
    decreases SIZE - n
  {
    if n < SIZE {
      StepKeeps(r, dat[n % |dat|]);
      MixedKeeps(Step(r, dat[n % |dat|]), dat, n + 1);
    }
  }

  /** The n-th of the 256 rounds takes the n-th octet of the data, which starts again when it
      is used up: any such states lead to where the rounds end. */
  lemma {:induction false} MixedIs(states: seq<Stream>, dat: seq<Octet>, n: nat)
    requires dat != [] && n <= 256 && |states| == 257
    requires forall k :: 0 <= k <= 256 ==> |states[k].s| == SIZE
    requires forall k :: 0 <= k < 256 ==> states[k + 1] == Step(states[k], dat[k % |dat|])
    ensures Mixed(states[n], dat, n) == states[256]
    decreases 256 - n
  {
    if n < 256 {
      assert states[n + 1] == Step(states[n], dat[n % |dat|]);
      MixedIs(states, dat, n + 1);
    }
  }

  /** An index after n increments. */
  function Turned(i: Octet, n: nat): Octet
    decreases n
  {
    if n == 0 then i else Turned(Wrap(i + 1), n - 1)
  }

  lemma {:induction false} TurnedIs(i: Octet, n: nat)
    requires n <= SIZE
    ensures Turned(i, n) == if i + n < SIZE then i + n else i + n - SIZE
    decreases n
  {
    if n > 0 {
      TurnedIs(Wrap(i + 1), n - 1);
    }
  }

  lemma {:induction false} MixedIndex(r: Stream, dat: seq<Octet>, n: nat)
    requires |r.s| == SIZE && dat != [] && n <= SIZE
    ensures Mixed(r, dat, n).i == Turned(r.i, SIZE - n)
    decreases SIZE - n
  {
    if n < SIZE {
      MixedIndex(Step(r, dat[n % |dat|]), dat, n + 1);
    }
  }

  class Generator {
    var i: Octet
    var j: Octet
    const s: array<Octet>

    ghost function State(): Stream
      reads this, s
    {
      Stream(i, j, s[..])
    }

    ghost predicate Valid()
      reads this, s
    {
      s.Length == SIZE && Permutation(s[..])
    }

    /** arc4_init */
    constructor ()
      ensures Valid() && i == 0 && j == 0 && forall n :: 0 <= n < SIZE ==> s[n] == n
    {
      s := new Octet[SIZE](n => Wrap(n));
      i, j := 0, 0;
    }

    /** The swap that drawing and mixing share. */
    method Advance(key: Octet)
      requires Valid()
      modifies this, s
      ensures Valid() && State() == Step(old(State()), key)
      ensures i == (old(i) + 1) % 256 && j == (old(j) + old(s[(i as int + 1) % 256]) + key) % 256
    {
      StepKeeps(State(), key);
      i := Wrap(i + 1);
      var si := s[i];
      j := Wrap(j + si + key);
      s[i] := s[j];
      s[j] := si;
      assert s[..] == Step(old(State()), key).s;
    }

    /** arc4_getbyte */
    method GetByte() returns (b: Octet)
      requires Valid()
      modifies this, s
      ensures Valid() && State() == Step(old(State()), 0)
      ensures i == (old(i) + 1) % 256 && j == (old(j) + old(s[(i as int + 1) % 256])) % 256
      ensures s[i] == old(s[..])[j] && s[j] == old(s[..])[i]
      // the index is the sum of the two octets that were swapped, as an octet
      ensures b == s[(s[i] as int + s[j] as int) % 256]
    {
      Advance(0);
      var si: int, sj: int := s[i], s[j];
      b := s[Wrap(si + sj)];
    }

    /** The loop of arc4_addrandom. */
    method Mix(dat: seq<Octet>)
      requires Valid() && dat != []
      modifies this, s
      ensures Valid() && State() == Mixed(old(State()), dat, 0)
    {
      for n := 0 to SIZE
        invariant Valid() && Mixed(State(), dat, n) == Mixed(old(State()), dat, 0)
      {
        Advance(dat[n % |dat|]);
      }
    }

    /** arc4_addrandom.  Both indices end up one before where i was. */
    method AddRandom(dat: seq<Octet>)
      requires Valid() && dat != []
      modifies this, s
      ensures Valid() && i == j == Wrap(old(i) - 1)
      ensures s[..] == Mixed(Stream(Wrap(old(i) - 1), old(j), old(s[..])), dat, 0).s
    {
      i := Wrap(i - 1);
      MixedIndex(State(), dat, 0);
      TurnedIs(i, SIZE);
      Mix(dat);
      j := i;
    }
  }

  // ----- bounded numbers

  const WORD := 0x1_0000_0000

  function Word(x: int): nat { x % WORD }

  /** The least word that arc4random_uniform accepts, computed without 64-bit numbers. */
  function Least(bound: nat): nat
    requires 2 <= bound < WORD
  {
    if bound > 0x8000_0000 then Word(1 + (WORD - 1 - bound))
    else Word(Word(0xFFFF_FFFF - Word(bound * 2)) + 1) % bound
  }

  lemma Doubled(bound: nat)
    requires bound < 0x8000_0000
    ensures Word(Word(0xFFFF_FFFF - Word(bound * 2)) + 1) == WORD - 2 * bound || bound == 0
  {
    assert Word(bound * 2) == bound * 2;
    assert Word(0xFFFF_FFFF - bound * 2) == 0xFFFF_FFFF - bound * 2;
  }

  lemma TwiceLess(w: nat, bound: nat)
    requires bound > 0 && 2 * bound <= w
    ensures (w - 2 * bound) % bound == w % bound < bound
  {
    ModOfSum(w - 2 * bound, 2, bound);
    assert w - 2 * bound + 2 * bound == w;
  }

  lemma OnceIn(w: nat, bound: nat)
    requires bound <= w < 2 * bound
    ensures w % bound == w - bound
  {
    Divided(bound, 1, w - bound);
  }

  /** It is what 64-bit numbers would give, and less than half of all words are refused. */
  lemma LeastIs(bound: nat)
    requires 2 <= bound < WORD
    ensures Least(bound) == WORD % bound && 2 * Least(bound) < WORD
  {
    if bound > 0x8000_0000 {
      OnceIn(WORD, bound);
    } else if bound < 0x8000_0000 {
      Doubled(bound);
      TwiceLess(WORD, bound);
    }
  }

  /** How many words from lo up to hi are v modulo the bound. */
  function Hits(lo: nat, hi: nat, bound: nat, v: nat): nat
    requires lo <= hi && bound > 0
    decreases hi - lo
  {
    if lo == hi then 0 else Hits(lo, hi - 1, bound, v) + if (hi - 1) % bound == v then 1 else 0
  }

  lemma {:induction false} HitsSplit(lo: nat, mid: nat, hi: nat, bound: nat, v: nat)
    requires lo <= mid <= hi && bound > 0
    ensures Hits(lo, hi, bound, v) == Hits(lo, mid, bound, v) + Hits(mid, hi, bound, v)
    decreases hi - mid
  {
    if mid < hi {
      HitsSplit(lo, mid, hi - 1, bound, v);
    }
  }

  /** From a multiple of the bound on, the residues come in order. */
  lemma {:induction false} HitsBlock(k: nat, n: nat, bound: nat, v: nat)
    requires n <= bound && v < bound
    ensures k * bound >= 0 && Hits(k * bound, k * bound + n, bound, v) == if v < n then 1 else 0
    decreases n
  {
    assert k * bound >= 0;
    if n > 0 {
      HitsBlock(k, n - 1, bound, v);
      ModOfSum(n - 1, k, bound);
      Divided(bound, 0, n - 1);
    }
  }

  lemma {:induction false} HitsFrom(k: nat, bound: nat, v: nat)
    requires v < bound
    ensures k * bound >= 0 && Hits(0, k * bound, bound, v) == k
    decreases k
  {
    if k > 0 {
      HitsFrom(k - 1, bound, v);
      HitsBlock(k - 1, bound, bound, v);
      assert k * bound == (k - 1) * bound + bound;
      HitsSplit(0, (k - 1) * bound, k * bound, bound, v);
    }
  }

  /** The words below the least residue too many, and the words that are left, are as many
      for each residue as for any other. */
  lemma NoBias(bound: nat, v: nat)
    requires 2 <= bound < WORD && v < bound
    ensures Hits(Least(bound), WORD, bound, v) == WORD / bound
  {
    LeastIs(bound);
    var q, m := WORD / bound, WORD % bound;
    var whole := q * bound;
    assert WORD == whole + m;
    HitsFrom(q, bound, v);
    HitsBlock(q, m, bound, v);
    HitsSplit(0, whole, WORD, bound, v);
    FirstHits(m, bound, v);
    HitsSplit(0, m, WORD, bound, v);
  }

  lemma FirstHits(n: nat, bound: nat, v: nat)
    requires n <= bound && v < bound
    ensures Hits(0, n, bound, v) == if v < n then 1 else 0
  {
    HitsBlock(0, n, bound, v);
    assert 0 * bound == 0;
  }

  datatype Outcome = Exhausted | Number(value: nat, used: nat)

  /** arc4random_uniform, drawing from `words`; Exhausted when all of them are refused. */
  method Uniform(bound: nat, words: seq<nat>) returns (r: Outcome)
    requires bound < WORD && forall k :: 0 <= k < |words| ==> words[k] < WORD
    ensures bound < 2 ==> r == Number(0, 0)
    ensures bound >= 2 && r.Exhausted? ==> forall k :: 0 <= k < |words| ==> words[k] < WORD % bound
    ensures bound >= 2 && r.Number? ==>
      0 < r.used <= |words| && words[r.used - 1] >= WORD % bound && r.value == words[r.used - 1] % bound < bound
    ensures bound >= 2 && r.Number? ==> forall k :: 0 <= k < r.used - 1 ==> words[k] < WORD % bound
  {
    if bound < 2 { return Number(0, 0); }
    var least := Least(bound);
    LeastIs(bound);
    for n := 0 to |words|
      invariant forall k :: 0 <= k < n ==> words[k] < least
    {
      if words[n] >= least {
        return Number(words[n] % bound, n + 1);
      }
    }
    r := Exhausted;
  }
}
