/** Bytes, and the flattening of a list of byte runs into one byte string. */
module Bytes {

  type Byte = b: nat | b < 256

  /** The bytes of all runs, in order. */
  function Flat<T>(parts: seq<seq<T>>): seq<T> {
    if parts == [] then [] else parts[0] + Flat(parts[1..])
  }

  /** Two neighbouring slices make one. */
  lemma SliceJoin<T>(s: seq<T>, i: nat, j: nat, k: nat)
    requires i <= j <= k <= |s|
    ensures s[i..j] + s[j..k] == s[i..k]
  {
  }

  /** Two pieces of `data` behind s, one after the other, are all of it. */
  lemma InPieces<T>(s: seq<T>, data: seq<T>, n: nat)
    requires n <= |data|
    ensures s + data[..n] + data[n..] == s + data
  {
    assert data[..n] + data[n..] == data;
  }

  /** A slice of a slice is a slice. */
  lemma SliceSlice<T>(s: seq<T>, i: nat, j: nat, a: nat, b: nat)
    requires i <= j <= |s| && a <= b <= j - i
    ensures s[i..j][a..b] == s[i + a..i + b]
  {
    assert forall t :: 0 <= t < b - a ==> s[i..j][a..b][t] == s[i..j][a + t] == s[i + a..i + b][t];
  }

  ghost predicate AllEmpty<T>(parts: seq<seq<T>>) {
    forall i :: 0 <= i < |parts| ==> parts[i] == []
  }

  lemma {:induction false} FlatOfEmpties<T>(parts: seq<seq<T>>)
    requires AllEmpty(parts)
    ensures Flat(parts) == []
  {
    if parts != [] {
      assert AllEmpty(parts[1..]) by {
        forall i | 0 <= i < |parts[1..]| ensures parts[1..][i] == [] { assert parts[1..][i] == parts[i + 1]; }
      }
      FlatOfEmpties(parts[1..]);
    }
  }

  lemma {:induction false} FlatConcat<T>(a: seq<seq<T>>, b: seq<seq<T>>)
    ensures Flat(a + b) == Flat(a) + Flat(b)
  {
    if a == [] {
      assert a + b == b;
    } else {
      assert (a + b)[1..] == a[1..] + b;
      FlatConcat(a[1..], b);
    }
  }

  lemma FlatOne<T>(p: seq<T>)
    ensures Flat([p]) == p
  {
    assert [p][1..] == [];
  }

  /** Flattening cut at run k. */
  lemma FlatSplit<T>(parts: seq<seq<T>>, k: nat)
    requires k <= |parts|
    ensures Flat(parts) == Flat(parts[..k]) + Flat(parts[k..])
  {
    assert parts == parts[..k] + parts[k..];
    FlatConcat(parts[..k], parts[k..]);
  }

  /** Flattening cut around run k. */
  lemma FlatAround<T>(parts: seq<seq<T>>, k: nat)
    requires k < |parts|
    ensures Flat(parts) == Flat(parts[..k]) + parts[k] + Flat(parts[k + 1..])
  {
    FlatSplit(parts, k);
    assert parts[k..][1..] == parts[k + 1..];
  }

  /** When every run after k is empty, growing run k at its end appends to the whole. */
  lemma FlatGrow<T>(parts: seq<seq<T>>, k: nat, data: seq<T>)
    requires k < |parts|
    requires AllEmpty(parts[k + 1..])
    ensures Flat(parts[k := parts[k] + data]) == Flat(parts) + data
  {
    var parts' := parts[k := parts[k] + data];
    FlatAround(parts, k);
    FlatAround(parts', k);
    assert parts'[..k] == parts[..k] && parts'[k + 1..] == parts[k + 1..];
    FlatOfEmpties(parts[k + 1..]);
  }

  /** Dropping empty runs from the end changes nothing. */
  lemma FlatTrim<T>(parts: seq<seq<T>>, k: nat)
    requires k <= |parts|
    requires AllEmpty(parts[k..])
    ensures Flat(parts[..k]) == Flat(parts)
  {
    FlatSplit(parts, k);
    FlatOfEmpties(parts[k..]);
  }

  /** One more run at the end. */
  lemma FlatSnoc<T>(parts: seq<seq<T>>, p: seq<T>)
    ensures Flat(parts + [p]) == Flat(parts) + p
  {
    FlatConcat(parts, [p]);
    FlatOne(p);
  }

  /** One more run at the front. */
  lemma FlatCons<T>(p: seq<T>, parts: seq<seq<T>>)
    ensures Flat([p] + parts) == p + Flat(parts)
  {
    assert ([p] + parts)[1..] == parts;
  }

  /** Where run k lies in the whole. */
  lemma FlatRun<T>(parts: seq<seq<T>>, k: nat)
    requires k < |parts|
    ensures Flat(parts[..k + 1]) == Flat(parts[..k]) + parts[k]
    ensures |Flat(parts[..k + 1])| <= |Flat(parts)|
    ensures forall i, j :: 0 <= i <= j <= |parts[k]| ==>
              Flat(parts)[|Flat(parts[..k])| + i..|Flat(parts[..k])| + j] == parts[k][i..j]
  {
    assert parts[..k + 1] == parts[..k] + [parts[k]];
    FlatSnoc(parts[..k], parts[k]);
    FlatAround(parts, k);
  }

  /** How many bytes the runs before run k hold. */
  function Before<T>(parts: seq<seq<T>>, k: nat): (n: nat)
    requires k <= |parts|
  {
    if k == 0 then 0 else Before(parts, k - 1) + |parts[k - 1]|
  }

  lemma {:induction false} BeforeIs<T>(parts: seq<seq<T>>, k: nat)
    requires k <= |parts|
    ensures Before(parts, k) == |Flat(parts[..k])| <= |Flat(parts)|
  {
    FlatSplit(parts, k);
    if k > 0 {
      BeforeIs(parts, k - 1);
      FlatRun(parts, k - 1);
    }
  }

  /** Run k lies behind the runs before it. */
  lemma RunBytes<T>(parts: seq<seq<T>>, k: nat)
    requires k < |parts|
    ensures Before(parts, k) + |parts[k]| == Before(parts, k + 1) <= |Flat(parts)|
    ensures forall i :: 0 <= i < |parts[k]| ==> Flat(parts)[Before(parts, k) + i] == parts[k][i]
  {
    BeforeIs(parts, k);
    BeforeIs(parts, k + 1);
    FlatAround(parts, k);
  }

  /** The position behind the last run. */
  lemma AtEnd<T>(parts: seq<seq<T>>)
    ensures Before(parts, |parts|) == |Flat(parts)|
  {
    BeforeIs(parts, |parts|);
    assert parts[..|parts|] == parts;
  }
}
