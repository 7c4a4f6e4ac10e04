/** JSON values as Python holds them, their equality, and the recursive merge of objects. */
module JsonTrees {
  import opened Faults

  datatype Json =
    | Null
    | Bool(on: bool)
    | Num(n: real)
    | Str(s: string)
    | Arr(items: seq<Json>)
    | Obj(fields: Fields)

  type Fields = map<string, Json>

  /** Equality of decoded values: true equals one and false equals zero. */
  predicate Eq(a: Json, b: Json)
    decreases a
  {
    match (a, b)
    case (Bool(x), Num(y)) => y == if x then 1.0 else 0.0
    case (Num(x), Bool(y)) => x == if y then 1.0 else 0.0
    case (Arr(xs), Arr(ys)) => |xs| == |ys| && forall i :: 0 <= i < |xs| ==> Eq(xs[i], ys[i])
    case (Obj(xs), Obj(ys)) => xs.Keys == ys.Keys && forall k :: k in xs ==> Eq(xs[k], ys[k])
    case _ => a == b
  }

  predicate EqFields(a: Fields, b: Fields) {
    a.Keys == b.Keys && forall k :: k in a ==> Eq(a[k], b[k])
  }

  lemma {:induction false} EqReflexive(a: Json)
    ensures Eq(a, a)
    decreases a
  {
    match a
    case Arr(xs) =>
      forall i | 0 <= i < |xs| ensures Eq(xs[i], xs[i]) {
        EqReflexive(xs[i]);
      }
    case Obj(xs) =>
      forall k | k in xs ensures Eq(xs[k], xs[k]) {
        EqReflexive(xs[k]);
      }
    case _ =>
  }

  lemma {:induction false} EqSymmetric(a: Json, b: Json)
    requires Eq(a, b)
    ensures Eq(b, a)
    decreases a
  {
    match (a, b)
    case (Arr(xs), Arr(ys)) =>
      forall i | 0 <= i < |xs| ensures Eq(ys[i], xs[i]) {
        EqSymmetric(xs[i], ys[i]);
      }
    case (Obj(xs), Obj(ys)) =>
      forall k | k in xs ensures Eq(ys[k], xs[k]) {
        EqSymmetric(xs[k], ys[k]);
      }
    case _ =>
  }

  lemma {:induction false} EqTransitive(a: Json, b: Json, c: Json)
    requires Eq(a, b) && Eq(b, c)
    ensures Eq(a, c)
    decreases a
  {
    match a
    case Arr(xs) =>
      forall i | 0 <= i < |xs| ensures Eq(xs[i], c.items[i]) {
        EqTransitive(xs[i], b.items[i], c.items[i]);
      }
    case Obj(xs) =>
      forall k | k in xs ensures Eq(xs[k], c.fields[k]) {
        EqTransitive(xs[k], b.fields[k], c.fields[k]);
      }
    case _ =>
  }

  lemma EqFieldsTransitive(a: Fields, b: Fields, c: Fields)
    requires EqFields(a, b) && EqFields(b, c)
    ensures EqFields(a, c)
  {
    EqTransitive(Obj(a), Obj(b), Obj(c));
  }

  lemma EqFieldsReflexive(a: Fields)
    ensures EqFields(a, a)
  {
    EqReflexive(Obj(a));
  }

  /** Objects are merged key by key; anything else is replaced. */
  function DeepMerge(base: Fields, over: Fields): Fields
    decreases Obj(over)
  {
    map k | k in base.Keys + over.Keys ::
      if k !in over then base[k]
      else if over[k].Obj? && k in base && base[k].Obj? then Obj(DeepMerge(base[k].fields, over[k].fields))
      else over[k]
  }

  /** Merging into an object something equal to it changes nothing. */
  lemma {:induction false} MergeEqual(base: Fields, over: Fields)
    requires EqFields(over, base)
    ensures EqFields(DeepMerge(base, over), base)
    decreases Obj(over)
  {
    var merged := DeepMerge(base, over);
    assert merged.Keys == base.Keys + over.Keys;
    forall k | k in merged ensures Eq(merged[k], base[k]) {
      if over[k].Obj? && base[k].Obj? {
        MergeEqual(base[k].fields, over[k].fields);
      }
    }
  }

  /** What one key of a merge comes to when the overriding value equals the base value. */
  lemma MergeEqualKey(base: Fields, over: Fields, k: string)
    requires k in base && k in over && Eq(over[k], base[k])
    ensures Eq(DeepMerge(base, over)[k], base[k]) && Eq(base[k], DeepMerge(base, over)[k])
  {
    if over[k].Obj? && base[k].Obj? {
      MergeEqual(base[k].fields, over[k].fields);
    }
    EqSymmetric(DeepMerge(base, over)[k], base[k]);
  }

  /** Overriding keys that equal the base may be left out of a merge. */
  lemma MergeWithout(base: Fields, over: Fields, dropped: set<string>)
    requires forall k :: k in dropped && k in over ==> k in base && Eq(over[k], base[k])
    ensures EqFields(DeepMerge(base, over - dropped), DeepMerge(base, over))
  {
    var less, full := DeepMerge(base, over - dropped), DeepMerge(base, over);
    assert less.Keys == full.Keys;
    forall k | k in full ensures Eq(less[k], full[k]) {
      if k in over && k in dropped {
        MergeEqualKey(base, over, k);
      } else {
        EqReflexive(full[k]);
      }
    }
  }

  // Paths

  /** What stands under a path of keys. */
  function At(j: Json, path: seq<string>): Option<Json>
    decreases |path|
  {
    if path == [] then Some(j)
    else if j.Obj? && path[0] in j.fields then At(j.fields[path[0]], path[1..])
    else None
  }

  predicate ObjectAt(j: Json, path: seq<string>) {
    At(j, path).Some? && At(j, path).value.Obj?
  }

  /** Something other than an object stands above the path. */
  ghost predicate Blocked(j: Json, path: seq<string>) {
    exists k :: 0 <= k < |path| && At(j, path[..k]).Some? && !At(j, path[..k]).value.Obj?
  }

  /**
   * What a merge says under a path: the keys of both where both have objects, what the override
   * says where it says something else, nothing below that, and what the base says elsewhere.
   */
  ghost predicate MergedAt(base: Json, over: Json, merged: Json, path: seq<string>) {
    if ObjectAt(base, path) && ObjectAt(over, path) then
      && ObjectAt(merged, path)
      && At(merged, path).value.fields.Keys == At(base, path).value.fields.Keys + At(over, path).value.fields.Keys
    else if At(over, path).Some? then At(merged, path) == At(over, path)
    else if Blocked(over, path) then At(merged, path) == None
    else At(merged, path) == At(base, path)
  }

  lemma AtPrefix(j: Json, path: seq<string>, k: nat)
    requires 0 < k <= |path|
    ensures At(j, path[..k])
            == if j.Obj? && path[0] in j.fields then At(j.fields[path[0]], path[1..][..k - 1]) else None
  {
    assert path[..k][1..] == path[1..][..k - 1];
  }

  lemma BlockedBelow(j: Json, path: seq<string>)
    requires path != []
    ensures Blocked(j, path) <==> !j.Obj? || (path[0] in j.fields && Blocked(j.fields[path[0]], path[1..]))
  {
    hide At;
    assert At(j, path[..0]) == Some(j) by { AtNothing(j); }
    forall k | 0 < k <= |path| ensures At(j, path[..k])
      == if j.Obj? && path[0] in j.fields then At(j.fields[path[0]], path[1..][..k - 1]) else None
    {
      AtPrefix(j, path, k);
    }
    if j.Obj? && path[0] in j.fields && Blocked(j.fields[path[0]], path[1..]) {
      var below := j.fields[path[0]];
      var k :| 0 <= k < |path| - 1 && At(below, path[1..][..k]).Some? && !At(below, path[1..][..k]).value.Obj?;
      assert At(j, path[..k + 1]) == At(below, path[1..][..k]);
    }
  }

  lemma AtNothing(j: Json)
    ensures At(j, []) == Some(j)
  {
  }

  /** Under every path a merge says just that. */
  lemma {:induction false} MergePaths(base: Fields, over: Fields, path: seq<string>)
    ensures MergedAt(Obj(base), Obj(over), Obj(DeepMerge(base, over)), path)
    decreases |path|
  {
    var b, o, m := Obj(base), Obj(over), Obj(DeepMerge(base, over));
    if path != [] {
      var k, rest := path[0], path[1..];
      BlockedBelow(o, path);
      assert At(b, path) == if k in base then At(base[k], rest) else None;
      assert At(o, path) == if k in over then At(over[k], rest) else None;
      assert At(m, path) == if k in base || k in over then At(m.fields[k], rest) else None;
      if k in over && over[k].Obj? && k in base && base[k].Obj? {
        MergePaths(base[k].fields, over[k].fields, rest);
      } else if k in over && rest != [] {
        assert m.fields[k] == over[k];
        assert At(over[k], rest[..0]) == Some(over[k]);
      }
      hide Blocked, DeepMerge;
    }
  }
}
