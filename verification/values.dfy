/**
 The result tree `deep_serialize` walks, the two field tables that steer it,
 and what it does to a dict before and after rendering it: the `no_log`
 substitution, the order in which fields are emitted, the deletion of the
 bookkeeping fields, and the state the caller's dict is left in.
 */
module Values {

  datatype Option<T> = None | Some(value: T)

  /**
   A node of a task result. A scalar carries the text `str()` gives for it
   and its Python truthiness; a dict keeps its entries in insertion order.
   */
  datatype Value =
    | Scalar(text: string, truthy: bool)
    | List(items: seq<Value>)
    | Map(entries: seq<Entry>)

  type Entry = (string, Value)

  /** Scalars rank below containers; this lets the `no_log` substitution recurse. */
  function Kind(v: Value): nat
  {
    if v.Scalar? then 0 else 1
  }

  /** Python truthiness: a scalar says, a container is true when non-empty. */
  predicate Truthy(v: Value)
  {
    match v
    case Scalar(_, truthy) => truthy
    case List(items) => |items| > 0
    case Map(entries) => |entries| > 0
  }

  /** Fields shown before the others, in this order. */
  const PreferredFields: seq<string> := ["stdout", "rc", "stderr", "start", "end", "msg"]

  /** Fields deleted from a dict once the preferred ones are out. */
  const DeletableFields: seq<string> := [
    "stdout", "stdout_lines", "rc", "stderr", "start", "end", "msg",
    "_ansible_verbose_always", "_ansible_no_log", "invocation", "_ansible_parsed",
    "_ansible_item_result", "_ansible_ignore_errors", "_ansible_item_label"]

  const NoLogField := "_ansible_no_log"

  const CensoredMessage := "the output has been hidden due to the fact that 'no_log: true' was specified for this result"

  /** The dict that stands in for one whose `_ansible_no_log` is true. */
  const CensoredEntries: seq<Entry> := [("censored", Scalar(CensoredMessage, true))]

  function Keys(es: seq<Entry>): (ks: seq<string>)
    ensures |ks| == |es|
  {
    seq(|es|, i requires 0 <= i < |es| => es[i].0)
  }

  /** What every Python dict guarantees. */
  predicate DistinctKeys(es: seq<Entry>)
  {
    forall i, j :: 0 <= i < j < |es| ==> es[i].0 != es[j].0
  }

  predicate Distinct(ks: seq<string>)
  {
    forall i, j :: 0 <= i < j < |ks| ==> ks[i] != ks[j]
  }

  /** The value a dict holds for `key`, if it holds one. */
  function Lookup(es: seq<Entry>, key: string): (r: Option<Value>)
    ensures r.Some? <==> key in Keys(es)
    ensures r.Some? ==> (key, r.value) in es
    ensures DistinctKeys(es) ==> forall v :: (key, v) in es ==> r == Some(v)
  {
    if es == [] then None
    else
      assert Keys(es) == [es[0].0] + Keys(es[1..]);
      if es[0].0 == key then Some(es[0].1) else Lookup(es[1..], key)
  }

  /** A dict is censored when it holds a truthy `_ansible_no_log`. */
  predicate Censors(es: seq<Entry>)
  {
    var marker := Lookup(es, NoLogField);
    marker.Some? && Truthy(marker.value)
  }

  /** The dict rendering goes on with: the caller's, or the censored stand-in. */
  function Working(es: seq<Entry>): (w: seq<Entry>)
    ensures forall e :: e in w ==> e.1.Scalar? || e in es
  {
    if Censors(es) then CensoredEntries else es
  }

  /** The entries of `es` whose key is not in `ks`, in their order. */
  function Without(es: seq<Entry>, ks: seq<string>): (r: seq<Entry>)
    ensures forall e :: e in r <==> e in es && e.0 !in ks
    ensures |r| <= |es|
  {
    if es == [] then []
    else if es[0].0 in ks then Without(es[1..], ks)
    else [es[0]] + Without(es[1..], ks)
  }

  /** Deleting the keys `ks` and then `k` is deleting `ks + [k]`: one step of the deletion loop. */
  lemma {:induction false} WithoutOneMore(es: seq<Entry>, ks: seq<string>, k: string)
    ensures Without(Without(es, ks), [k]) == Without(es, ks + [k])
  {
    if es != [] {
      WithoutOneMore(es[1..], ks, k);
    }
  }

  /** Deleting an absent key leaves the entries as they are. */
  lemma {:induction false} WithoutAbsent(es: seq<Entry>, k: string)
    requires k !in Keys(es)
    ensures Without(es, [k]) == es
  {
    if es != [] {
      assert Keys(es) == [es[0].0] + Keys(es[1..]);
      WithoutAbsent(es[1..], k);
    }
  }

  /** Deletion keeps the survivors in their order: it distributes over concatenation. */
  lemma {:induction false} WithoutConcat(a: seq<Entry>, b: seq<Entry>, ks: seq<string>)
    ensures Without(a + b, ks) == Without(a, ks) + Without(b, ks)
  {
    if a != [] {
      assert (a + b)[1..] == a[1..] + b;
      WithoutConcat(a[1..], b, ks);
    } else {
      assert a + b == b;
    }
  }

  lemma {:induction false} WithoutDistinct(es: seq<Entry>, ks: seq<string>)
    requires DistinctKeys(es)
    ensures DistinctKeys(Without(es, ks))
  {
    if es != [] {
      WithoutDistinct(es[1..], ks);
      var rest := Without(es[1..], ks);
      forall j | 0 <= j < |rest|
        ensures es[0].0 != rest[j].0
      {
        assert rest[j] in es[1..];
        var i :| 0 <= i < |es[1..]| && es[1..][i] == rest[j];
        assert es[0].0 != es[i + 1].0;
      }
    }
  }

  /** A field as the renderer emits it; `preferred` says which pass emits it. */
  datatype Field = Field(key: string, value: Value, preferred: bool)

  function FieldKeys(fs: seq<Field>): (ks: seq<string>)
    ensures |ks| == |fs|
  {
    seq(|fs|, i requires 0 <= i < |fs| => fs[i].key)
  }

  /** The keys of `keys`, in that order, that occur in `present`. */
  function Present(keys: seq<string>, present: seq<string>): (r: seq<string>)
    ensures forall k :: k in r <==> k in keys && k in present
  {
    if keys == [] then []
    else
      var key := keys[|keys| - 1];
      Present(keys[..|keys| - 1], present) + (if key in present then [key] else [])
  }

  /**
   The first pass over a dict: a field for each key of `keys`, in that order,
   that the dict holds, with the value the dict holds for it.
   */
  function PreferredPart(w: seq<Entry>, keys: seq<string>): (fs: seq<Field>)
    ensures forall f :: f in fs ==> f.preferred && Lookup(w, f.key) == Some(f.value)
    ensures FieldKeys(fs) == Present(keys, Keys(w))
  {
    if keys == [] then []
    else
      var key := keys[|keys| - 1];
      var before := PreferredPart(w, keys[..|keys| - 1]);
      var here := match Lookup(w, key) case Some(v) => [Field(key, v, true)] case None => [];
      assert FieldKeys(before + here) == FieldKeys(before) + FieldKeys(here);
      before + here
  }

  /** The second pass: every entry left after the deletions, in dict order. */
  function RemainingPart(survivors: seq<Entry>): (fs: seq<Field>)
    ensures FieldKeys(fs) == Keys(survivors)
    ensures forall i :: 0 <= i < |fs| ==> fs[i] == Field(survivors[i].0, survivors[i].1, false)
  {
    seq(|survivors|, i requires 0 <= i < |survivors| => Field(survivors[i].0, survivors[i].1, false))
  }

  /** The fields a dict's rendering shows, in the order it shows them. */
  function Emitted(es: seq<Entry>): (fs: seq<Field>)
    ensures forall f :: f in fs ==> f.value.Scalar? || (f.key, f.value) in es
  {
    var w := Working(es);
    var fs := PreferredPart(w, PreferredFields) + RemainingPart(Without(w, DeletableFields));
    assert forall f :: f in fs ==> (f.key, f.value) in w by {
      forall f | f in fs
        ensures (f.key, f.value) in w
      {
        if f !in PreferredPart(w, PreferredFields) {
          var s := Without(w, DeletableFields);
          var i :| 0 <= i < |s| && RemainingPart(s)[i] == f;
          assert s[i] in s;
        }
      }
    }
    fs
  }

  /**
   Emission order: the preferred keys the dict holds, in the fixed order of
   `PreferredFields`, then the keys that survive the deletions, in dict
   order; and none of the latter is a preferred key.
   */
  lemma PreferredFieldsFirst(es: seq<Entry>)
    ensures var w := Working(es);
      var n := |Present(PreferredFields, Keys(w))|;
      var fs := Emitted(es);
      && n <= |fs|
      && FieldKeys(fs[..n]) == Present(PreferredFields, Keys(w))
      && (forall i :: 0 <= i < n ==> fs[i].preferred)
      && FieldKeys(fs[n..]) == Keys(Without(w, DeletableFields))
      && (forall i :: n <= i < |fs| ==> fs[i].key !in PreferredFields && !fs[i].preferred)
  {
    var w := Working(es);
    var p := PreferredPart(w, PreferredFields);
    var s := Without(w, DeletableFields);
    var fs := Emitted(es);
    assert fs[..|p|] == p && fs[|p|..] == RemainingPart(s);
    forall i | |p| <= i < |fs|
      ensures fs[i].key !in PreferredFields
    {
      assert fs[i] == RemainingPart(s)[i - |p|];
      assert s[i - |p|] in s;
    }
    forall i | 0 <= i < |p|
      ensures fs[i].preferred
    {
      assert p[i] in p;
    }
  }

  /**
   Which keys of a dict are shown: a key is emitted exactly when it is a
   preferred field or not a deletable one, so bookkeeping fields such as
   `invocation` never appear.
   */
  lemma EmittedKeys(es: seq<Entry>, k: string)
    ensures var w := Working(es);
      k in FieldKeys(Emitted(es)) <==> k in Keys(w) && (k in PreferredFields || k !in DeletableFields)
  {
    var w := Working(es);
    EmittedKeysSplit(es);
    KeysWithout(w, DeletableFields, k);
  }

  /** The keys a dict shows: the preferred ones it holds, then the survivors'. */
  lemma EmittedKeysSplit(es: seq<Entry>)
    ensures var w := Working(es);
      FieldKeys(Emitted(es)) == Present(PreferredFields, Keys(w)) + Keys(Without(w, DeletableFields))
  {
    var w := Working(es);
    var p := PreferredPart(w, PreferredFields);
    var r := RemainingPart(Without(w, DeletableFields));
    assert Emitted(es) == p + r;
    FieldKeysConcat(p, r);
  }

  lemma FieldKeysConcat(a: seq<Field>, b: seq<Field>)
    ensures FieldKeys(a + b) == FieldKeys(a) + FieldKeys(b)
  {
  }

  lemma {:induction false} PresentDistinct(keys: seq<string>, present: seq<string>)
    requires Distinct(keys)
    ensures Distinct(Present(keys, present))
  {
    if keys != [] {
      var key := keys[|keys| - 1];
      var init := keys[..|keys| - 1];
      PresentDistinct(init, present);
      assert key !in init;
    }
  }

  lemma DistinctConcat(a: seq<string>, b: seq<string>)
    requires Distinct(a) && Distinct(b)
    requires forall k :: k in a ==> k !in b
    ensures Distinct(a + b)
  {
    forall i, j | 0 <= i < j < |a + b|
      ensures (a + b)[i] != (a + b)[j]
    {
      if i < |a| && |a| <= j {
        assert (a + b)[i] in a && (a + b)[j] in b;
      }
    }
  }

  /** Every preferred field is also deleted before the remaining pass. */
  lemma PreferredAreDeletable()
    ensures forall k :: k in PreferredFields ==> k in DeletableFields
  {
    assert PreferredFields == DeletableFields[..1] + DeletableFields[2..7];
  }

  /** The keys of the remaining pass are none of the deletable ones. */
  lemma SurvivorKeys(w: seq<Entry>)
    ensures forall k :: k in Keys(Without(w, DeletableFields)) ==> k !in DeletableFields
  {
    var s := Without(w, DeletableFields);
    forall k | k in Keys(s)
      ensures k !in DeletableFields
    {
      var j :| 0 <= j < |s| && Keys(s)[j] == k;
      assert s[j] in s;
    }
  }

  /** No key of a (Python) dict is emitted twice. */
  lemma NoFieldTwice(es: seq<Entry>)
    requires DistinctKeys(es)
    ensures Distinct(FieldKeys(Emitted(es)))
  {
    var w := Working(es);
    var s := Without(w, DeletableFields);
    assert DistinctKeys(w);
    WithoutDistinct(w, DeletableFields);
    assert Distinct(Keys(s));
    PresentDistinct(PreferredFields, Keys(w));
    PreferredNotSurvivors(w);
    DistinctConcat(Present(PreferredFields, Keys(w)), Keys(s));
    EmittedKeysSplit(es);
  }

  /** No preferred key survives the deletions. */
  lemma PreferredNotSurvivors(w: seq<Entry>)
    ensures forall k :: k in Present(PreferredFields, Keys(w)) ==> k !in Keys(Without(w, DeletableFields))
  {
    PreferredAreDeletable();
    SurvivorKeys(w);
  }

  /**
   The preferred pass depends on the dict's contents only, not on the order
   its entries were inserted in.
   */
  lemma {:induction false} PreferredPartIgnoresOrder(a: seq<Entry>, b: seq<Entry>, keys: seq<string>)
    requires DistinctKeys(a) && DistinctKeys(b)
    requires forall e :: e in a <==> e in b
    ensures PreferredPart(a, keys) == PreferredPart(b, keys)
  {
    if keys != [] {
      var key := keys[|keys| - 1];
      PreferredPartIgnoresOrder(a, b, keys[..|keys| - 1]);
      LookupIgnoresOrder(a, b, key);
    }
  }

  lemma LookupIgnoresOrder(a: seq<Entry>, b: seq<Entry>, key: string)
    requires DistinctKeys(a) && DistinctKeys(b)
    requires forall e :: e in a <==> e in b
    ensures Lookup(a, key) == Lookup(b, key)
  {
    var ra := Lookup(a, key);
    if ra.Some? {
      assert (key, ra.value) in b;
    } else {
      var rb := Lookup(b, key);
      if rb.Some? {
        assert (key, rb.value) in a;
      }
    }
  }

  /**
   The caller's value after `deep_serialize(v)` returns. Every dict the call
   walks loses its deletable fields (each `del data[key]` acts on the
   caller's own dict), its survivors are left as their own renderings left
   them; a dict replaced by the censored stand-in is not touched at all, and
   lists and scalars keep their shape.
   */
  function Pruned(v: Value): Value
    decreases v
  {
    match v
    case Scalar(_, _) => v
    case List(items) => List(seq(|items|, i requires 0 <= i < |items| => Pruned(items[i])))
    case Map(es) =>
      if Censors(es) then v
      else
        var s := Without(es, DeletableFields);
        Map(seq(|s|, i requires 0 <= i < |s| => assert s[i] in es; (s[i].0, Pruned(s[i].1))))
  }

  /**
   What the walk leaves behind holds no deletable field in any dict it
   pruned, so walking it again deletes nothing more.
   */
  lemma {:induction false} PrunedIdempotent(v: Value)
    ensures Pruned(Pruned(v)) == Pruned(v)
    decreases v
  {
    match v
    case Scalar(_, _) =>
    case List(items) =>
      var p := Pruned(v).items;
      forall i | 0 <= i < |items|
        ensures Pruned(p[i]) == p[i]
      {
        PrunedIdempotent(items[i]);
      }
    case Map(es) =>
      if !Censors(es) {
        var s := Without(es, DeletableFields);
        forall i | 0 <= i < |s|
          ensures Pruned(Pruned(s[i].1)) == Pruned(s[i].1)
        {
          assert s[i] in es;
          PrunedIdempotent(s[i].1);
        }
        PrunedMapStable(es);
      }
  }

  /** A pruned dict whose values are stable under pruning is itself stable. */
  lemma PrunedMapStable(es: seq<Entry>)
    requires !Censors(es)
    requires var s := Without(es, DeletableFields);
      forall i :: 0 <= i < |s| ==> Pruned(Pruned(s[i].1)) == Pruned(s[i].1)
    ensures Pruned(Pruned(Map(es))) == Pruned(Map(es))
  {
    var p := Pruned(Map(es)).entries;
    PrunedMapEntries(es);
    PrunedKeysClean(es);
    WithoutNone(p, DeletableFields);
    assert Pruned(Map(p)).entries == p;
  }

  /** The entries of a pruned, uncensored dict: the survivors, each pruned. */
  lemma PrunedMapEntries(es: seq<Entry>)
    requires !Censors(es)
    ensures var s := Without(es, DeletableFields);
      var p := Pruned(Map(es));
      && p == Map(p.entries) && |p.entries| == |s|
      && forall i :: 0 <= i < |s| ==> p.entries[i] == (s[i].0, Pruned(s[i].1))
  {
  }

  /** A pruned dict holds no deletable key, so in particular no `no_log` marker. */
  lemma PrunedKeysClean(es: seq<Entry>)
    requires !Censors(es)
    ensures var p := Pruned(Map(es)).entries;
      && (forall i :: 0 <= i < |p| ==> p[i].0 !in DeletableFields)
      && !Censors(p)
  {
    var s := Without(es, DeletableFields);
    var p := Pruned(Map(es)).entries;
    assert Keys(p) == Keys(s);
    forall i | 0 <= i < |p|
      ensures p[i].0 !in DeletableFields
    {
      assert s[i] in s;
    }
    assert NoLogField !in Keys(p);
  }

  /** The keys left after deleting `ks` are the other keys. */
  lemma KeysWithout(es: seq<Entry>, ks: seq<string>, k: string)
    ensures k in Keys(Without(es, ks)) <==> k in Keys(es) && k !in ks
  {
    var r := Without(es, ks);
    if k in Keys(r) {
      var j :| 0 <= j < |r| && Keys(r)[j] == k;
      assert r[j] in r;
      var i :| 0 <= i < |es| && es[i] == r[j];
      assert Keys(es)[i] == k;
    }
    if k in Keys(es) && k !in ks {
      var i :| 0 <= i < |es| && Keys(es)[i] == k;
      assert es[i] in r;
      var j :| 0 <= j < |r| && r[j] == es[i];
      assert Keys(r)[j] == k;
    }
  }

  /**
   Rendering the same dict a second time, after the first walk pruned it,
   shows only the keys that are not deletable: the preferred fields the
   first rendering led with are gone.
   */
  lemma SecondPassKeys(es: seq<Entry>, k: string)
    requires !Censors(es)
    ensures var again := Pruned(Map(es)).entries;
      !Censors(again)
      && (k in FieldKeys(Emitted(again)) <==> k in Keys(es) && k !in DeletableFields)
  {
    var s := Without(es, DeletableFields);
    var again := Pruned(Map(es)).entries;
    assert Keys(again) == Keys(s);
    KeysWithout(es, DeletableFields, k);
    KeysWithout(es, DeletableFields, NoLogField);
    assert NoLogField in DeletableFields;
    assert !Censors(again);
    EmittedKeys(again, k);
    PreferredAreDeletable();
  }

  lemma {:induction false} WithoutNone(es: seq<Entry>, ks: seq<string>)
    requires forall i :: 0 <= i < |es| ==> es[i].0 !in ks
    ensures Without(es, ks) == es
  {
    if es != [] {
      WithoutNone(es[1..], ks);
    }
  }
}
