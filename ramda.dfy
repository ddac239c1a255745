/** Ramda's deep merge of plain objects (`mergeDeepWithKey`, and its two
    instances `mergeDeepRight` and `mergeDeepLeft`), used to put defaults
    under or over a configuration object. */
module Ramda {
  import opened Js

  /** Merges `l` and `r`: when both are plain objects, every key of either is
      kept, a key on one side only keeps that side's value, and a key on both
      sides is merged again; otherwise one side is taken whole, the left one
      when `preferLeft` holds. Arrays are not plain objects, so they are never
      merged element by element. */
  function MergeValue(l: Value, r: Value, preferLeft: bool): (m: Value)
    ensures !(l.Obj? && r.Obj?) ==> m == (if preferLeft then l else r)
    ensures l.Obj? && r.Obj? ==> m.Obj? && m.fields.Keys == l.fields.Keys + r.fields.Keys
    ensures l.Obj? && r.Obj? ==>
      forall k | k in m.fields.Keys ::
        if k in l.fields && k in r.fields then m.fields[k] == MergeValue(l.fields[k], r.fields[k], preferLeft)
        else if k in l.fields then m.fields[k] == l.fields[k]
        else m.fields[k] == r.fields[k]
    decreases l
  {
    if l.Obj? && r.Obj? then
      Obj(map k | k in l.fields.Keys + r.fields.Keys ::
        if k in l.fields && k in r.fields then
          assert l.fields[k] in l.fields.Values;
          MergeValue(l.fields[k], r.fields[k], preferLeft)
        else if k in l.fields then l.fields[k]
        else r.fields[k])
    else if preferLeft then l
    else r
  }

  /** `R.mergeDeepRight(l, r)`: the right object wins every conflict. */
  function MergeDeepRight(l: map<string, Value>, r: map<string, Value>): (m: map<string, Value>)
    ensures m.Keys == l.Keys + r.Keys
  {
    MergeValue(Obj(l), Obj(r), false).fields
  }

  /** `R.mergeDeepLeft(l, r)`: the left object wins every conflict. */
  function MergeDeepLeft(l: map<string, Value>, r: map<string, Value>): (m: map<string, Value>)
    ensures m.Keys == l.Keys + r.Keys
  {
    MergeValue(Obj(l), Obj(r), true).fields
  }

  /** Preferring the left side is preferring the right side with the
      arguments swapped. */
  lemma {:induction false} MergeFlip(l: Value, r: Value)
    ensures MergeValue(l, r, true) == MergeValue(r, l, false)
    decreases l
  {
    if l.Obj? && r.Obj? {
      var a := MergeValue(l, r, true).fields;
      var b := MergeValue(r, l, false).fields;
      forall k | k in a.Keys
        ensures a[k] == b[k]
      {
        if k in l.fields && k in r.fields {
          assert l.fields[k] in l.fields.Values;
          MergeFlip(l.fields[k], r.fields[k]);
        }
      }
    }
  }

  /** Merging a value with itself gives it back. */
  lemma {:induction false} MergeSelf(v: Value, preferLeft: bool)
    ensures MergeValue(v, v, preferLeft) == v
    decreases v
  {
    if v.Obj? {
      var m := MergeValue(v, v, preferLeft).fields;
      forall k | k in m.Keys
        ensures m[k] == v.fields[k]
      {
        assert v.fields[k] in v.fields.Values;
        MergeSelf(v.fields[k], preferLeft);
      }
    }
  }

  /** Merging with an empty object changes nothing. */
  lemma MergeEmpty(l: map<string, Value>, preferLeft: bool)
    ensures MergeValue(Obj(l), Obj(map[]), preferLeft) == Obj(l)
    ensures MergeValue(Obj(map[]), Obj(l), preferLeft) == Obj(l)
  {
    var m := MergeValue(Obj(l), Obj(map[]), preferLeft).fields;
    assert forall k | k in m :: m[k] == l[k];
    var n := MergeValue(Obj(map[]), Obj(l), preferLeft).fields;
    assert forall k | k in n :: n[k] == l[k];
  }

  /** One key of `R.mergeDeepLeft(l, r)`: a key on one side only keeps that
      side's value; a key on both sides keeps the left value unless both
      values are objects, which are merged again with the left still
      winning. */
  lemma MergeDeepLeftAt(l: map<string, Value>, r: map<string, Value>, k: string)
    requires k in l || k in r
    ensures var m := MergeDeepLeft(l, r);
      && k in m
      && (k in l && k !in r ==> m[k] == l[k])
      && (k !in l ==> m[k] == r[k])
      && (k in l && k in r && !(l[k].Obj? && r[k].Obj?) ==> m[k] == l[k])
      && (k in l && k in r && l[k].Obj? && r[k].Obj? ==> m[k] == Obj(MergeDeepLeft(l[k].fields, r[k].fields)))
  {
    var m := MergeValue(Obj(l), Obj(r), true);
    assert k in m.fields.Keys;
  }

  /** A key whose left value is not an object keeps that value. */
  lemma MergeDeepLeftNonObject(l: map<string, Value>, r: map<string, Value>, k: string)
    requires k in l && !l[k].Obj?
    ensures MergeDeepLeft(l, r)[k] == l[k]
  {
    MergeDeepLeftAt(l, r, k);
  }

  /** A key holding an object on both sides, whose left object holds no
      nested objects, is merged key by key: the left values all stay, and
      keys only the right object holds are added. */
  lemma MergeDeepLeftNested(l: map<string, Value>, r: map<string, Value>, k: string)
    requires k in l && k in r && l[k].Obj? && r[k].Obj?
    requires forall j | j in l[k].fields :: !l[k].fields[j].Obj?
    ensures var s := MergeDeepLeft(l, r)[k]; var a := l[k].fields; var b := r[k].fields;
      && s.Obj?
      && s.fields.Keys == a.Keys + b.Keys
      && (forall j | j in a :: s.fields[j] == a[j])
      && (forall j | j in b && j !in a :: s.fields[j] == b[j])
  {
    var a := l[k].fields;
    var b := r[k].fields;
    MergeDeepLeftAt(l, r, k);
    forall j | j in a ensures MergeDeepLeft(a, b)[j] == a[j] {
      MergeDeepLeftNonObject(a, b, j);
    }
    forall j | j in b && j !in a ensures MergeDeepLeft(a, b)[j] == b[j] {
      MergeDeepLeftAt(a, b, j);
    }
  }
}
