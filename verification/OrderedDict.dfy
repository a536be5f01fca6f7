/** A dictionary that remembers the order in which its keys were first set: a list of keys
    beside a map. Setting a key again replaces its value and keeps its place. */
module OrderedDict {

  ghost predicate Distinct(s: seq<string>) {
    forall i, j :: 0 <= i < j < |s| ==> s[i] != s[j]
  }

  datatype Dict<V> = Dict(order: seq<string>, vals: map<string, V>) {

    ghost predicate Valid() {
      && (forall k :: k in order <==> k in vals)
      && Distinct(order)
    }

    /** `d[k] = v` */
    function Put(k: string, v: V): (d: Dict<V>)
      ensures Valid() ==> d.Valid()
      ensures k in d.vals && d.vals[k] == v
    {
      Dict(if k in vals then order else order + [k], vals[k := v])
    }
  }

  function Empty<V>(): (d: Dict<V>)
    ensures d.Valid()
  {
    Dict([], map[])
  }

  /** The keys of xs, then those of ys that are new, each at its first appearance. */
  function Extend(xs: seq<string>, ys: seq<string>): (r: seq<string>)
    ensures xs <= r
    ensures forall k :: k in r <==> k in xs || k in ys
  {
    if ys == [] then xs else
      var r := Extend(xs, ys[..|ys| - 1]);
      assert ys == ys[..|ys| - 1] + [ys[|ys| - 1]];
      if ys[|ys| - 1] in r then r else r + [ys[|ys| - 1]]
  }

  lemma {:induction false} ExtendSnoc(xs: seq<string>, ys: seq<string>, k: string)
    ensures Extend(xs, ys + [k]) == if k in Extend(xs, ys) then Extend(xs, ys) else Extend(xs, ys) + [k]
  {
    assert (ys + [k])[..|ys|] == ys;
  }

  lemma {:induction false} ExtendDistinct(xs: seq<string>, ys: seq<string>)
    requires Distinct(xs)
    ensures Distinct(Extend(xs, ys))
  {
    if ys != [] {
      ExtendDistinct(xs, ys[..|ys| - 1]);
    }
  }

  lemma {:induction false} ExtendAssociates(xs: seq<string>, ys: seq<string>, zs: seq<string>)
    ensures Extend(xs, Extend(ys, zs)) == Extend(Extend(xs, ys), zs)
  {
    if zs != [] {
      var z, zs' := zs[|zs| - 1], zs[..|zs| - 1];
      assert zs == zs' + [z];
      ExtendAssociates(xs, ys, zs');
      ExtendSnoc(xs, Extend(ys, zs'), z);
    }
  }

  /** Keys that are all there already change nothing. */
  lemma {:induction false} ExtendKnown(xs: seq<string>, ys: seq<string>)
    requires forall k :: k in ys ==> k in xs
    ensures Extend(xs, ys) == xs
  {
    if ys != [] {
      assert ys == ys[..|ys| - 1] + [ys[|ys| - 1]];
      ExtendKnown(xs, ys[..|ys| - 1]);
    }
  }
}
