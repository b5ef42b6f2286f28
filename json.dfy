/**
 A JSON document as a tree. This is what the crate's serialisers describe
 to serde_json: objects keep their members in the order the serialiser
 emits them, so an object is a sequence of key/value pairs, not a map.
 */
module JsonValue {
  import opened Wrappers

  datatype Json =
    | Null
    | Bool(b: bool)
    | Num(n: real)
    | Str(s: string)
    | Arr(elems: seq<Json>)
    | Obj(members: seq<Member>)

  type Member = (string, Json)

  /** The keys of an object's members, in emission order. */
  function Keys(ms: seq<Member>): (ks: seq<string>)
    ensures |ks| == |ms|
    ensures forall i :: 0 <= i < |ms| ==> ks[i] == ms[i].0
  {
    if ms == [] then [] else [ms[0].0] + Keys(ms[1..])
  }

  /** The value of the first member whose key is `k`, as a JSON reader would find it. */
  function Lookup(ms: seq<Member>, k: string): (r: Option<Json>)
    ensures r.None? <==> k !in Keys(ms)
    ensures r.Some? ==> (k, r.value) in ms
  {
    if ms == [] then None
    else if ms[0].0 == k then Some(ms[0].1)
    else Lookup(ms[1..], k)
  }

  lemma LookupCons(m: Member, ms: seq<Member>, k: string)
    ensures Lookup([m] + ms, k) == if m.0 == k then Some(m.1) else Lookup(ms, k)
  {
    assert ([m] + ms)[1..] == ms;
  }

  /** No key occurs twice. */
  predicate NoDup<T(==)>(xs: seq<T>)
  {
    forall i, j :: 0 <= i < j < |xs| ==> xs[i] != xs[j]
  }

  lemma NoDupTail<T>(xs: seq<T>)
    requires xs != [] && NoDup(xs)
    ensures NoDup(xs[1..]) && xs[0] !in xs[1..]
  {
    forall a, b | 0 <= a < b < |xs| - 1
      ensures xs[1..][a] != xs[1..][b]
    {
      assert xs[1..][a] == xs[a + 1] && xs[1..][b] == xs[b + 1];
    }
  }

  /** `xs` is obtained from `ys` by dropping some elements and keeping the order of the rest. */
  predicate IsSubseq<T(==)>(xs: seq<T>, ys: seq<T>)
    decreases |ys|
  {
    if xs == [] then true
    else if ys == [] then false
    else (xs[0] == ys[0] && IsSubseq(xs[1..], ys[1..])) || IsSubseq(xs, ys[1..])
  }

  lemma {:induction false} SubseqMembers<T>(xs: seq<T>, ys: seq<T>, x: T)
    requires IsSubseq(xs, ys)
    requires x in xs
    ensures x in ys
    decreases |ys|
  {
    if xs[0] == ys[0] && IsSubseq(xs[1..], ys[1..]) {
      if x != xs[0] {
        SubseqMembers(xs[1..], ys[1..], x);
      }
    } else {
      SubseqMembers(xs, ys[1..], x);
    }
  }

  /** A subsequence of a duplicate-free sequence is duplicate-free. */
  lemma {:induction false} SubseqNoDup<T>(xs: seq<T>, ys: seq<T>)
    requires IsSubseq(xs, ys)
    requires NoDup(ys)
    ensures NoDup(xs)
    decreases |ys|
  {
    if xs == [] {
    } else if xs[0] == ys[0] && IsSubseq(xs[1..], ys[1..]) {
      SubseqNoDup(xs[1..], ys[1..]);
      forall j | 0 < j < |xs|
        ensures xs[0] != xs[j]
      {
        SubseqMembers(xs[1..], ys[1..], xs[j]);
      }
      forall i, j | 0 <= i < j < |xs|
        ensures xs[i] != xs[j]
      {
        if i > 0 {
          assert xs[i] == xs[1..][i - 1] && xs[j] == xs[1..][j - 1];
        }
      }
    } else {
      SubseqNoDup(xs, ys[1..]);
    }
  }
}
