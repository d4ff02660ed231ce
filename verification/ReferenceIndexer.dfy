/**
 The reference cache: records "referrer refers to referent" kept under a string key, with two
 inverted indices, one by referrer key and one by referent key.
 */
module ReferenceIndexer {
  import opened Common
  import Text

  datatype GVK = GVK(group: string, version: string, kind: string)

  /** What the reference cache knows of a Kubernetes object: its type and its name. */
  datatype Object = Object(gvk: GVK, namespace: string, name: string)

  datatype Ref = Ref(referrer: Object, referent: Object)

  predicate PlainField(s: string) {
    '/' !in s && ':' !in s && ',' !in s
  }

  /** No separator of the key format occurs in a field; Kubernetes naming rules ensure this. */
  predicate Plain(o: Object) {
    && PlainField(o.gvk.group) && PlainField(o.gvk.version) && PlainField(o.gvk.kind)
    && PlainField(o.namespace) && PlainField(o.name)
  }

  predicate PlainRef(r: Ref) {
    Plain(r.referrer) && Plain(r.referent)
  }

  /** objectKeyFunc: "group/version, Kind=kind/namespace/name" */
  function ObjectKey(o: Object): string {
    o.gvk.group + ['/'] + (o.gvk.version + [','] + (" Kind=" + o.gvk.kind + ['/'] + (o.namespace + ['/'] + o.name)))
  }

  /** ObjectReferenceKeyFunc */
  function ReferenceKey(r: Ref): string {
    ObjectKey(r.referrer) + [':'] + ObjectKey(r.referent)
  }

  lemma ObjectKeyInjective(o: Object, p: Object)
    requires Plain(o) && Plain(p) && ObjectKey(o) == ObjectKey(p)
    ensures o == p
  {
    var o3, p3 := o.namespace + ['/'] + o.name, p.namespace + ['/'] + p.name;
    var o2, p2 := " Kind=" + o.gvk.kind + ['/'] + o3, " Kind=" + p.gvk.kind + ['/'] + p3;
    var o1, p1 := o.gvk.version + [','] + o2, p.gvk.version + [','] + p2;
    Text.SplitUnique(o.gvk.group, o1, '/', p.gvk.group, p1);
    Text.SplitUnique(o.gvk.version, o2, ',', p.gvk.version, p2);
    Text.SplitUnique(" Kind=" + o.gvk.kind, o3, '/', " Kind=" + p.gvk.kind, p3);
    assert o.gvk.kind == (" Kind=" + o.gvk.kind)[6..] == (" Kind=" + p.gvk.kind)[6..] == p.gvk.kind;
    Text.SplitUnique(o.namespace, o.name, '/', p.namespace, p.name);
  }

  /** Different records have different keys. */
  lemma ReferenceKeyInjective(r: Ref, q: Ref)
    requires PlainRef(r) && PlainRef(q) && ReferenceKey(r) == ReferenceKey(q)
    ensures r == q
  {
    KeyHasNoColon(r.referrer);
    KeyHasNoColon(q.referrer);
    Text.SplitUnique(ObjectKey(r.referrer), ObjectKey(r.referent), ':', ObjectKey(q.referrer), ObjectKey(q.referent));
    ObjectKeyInjective(r.referrer, q.referrer);
    ObjectKeyInjective(r.referent, q.referent);
  }

  lemma KeyHasNoColon(o: Object)
    requires Plain(o)
    ensures ':' !in ObjectKey(o)
  {
  }

  // ---------------------------------------------------------------- inverted indices

  type Index = map<string, set<string>>

  function AddToIndex(index: Index, value: string, key: string): Index {
    index[value := (if value in index then index[value] else {}) + {key}]
  }

  /** Removing the last key of a value removes the value. */
  function RemoveFromIndex(index: Index, value: string, key: string): Index {
    if value !in index then index
    else if index[value] - {key} == {} then index - {value}
    else index[value := index[value] - {key}]
  }

  /** The index lists, under each value, exactly the keys of the records with that value. */
  ghost predicate Inverts(index: Index, items: map<string, Ref>, valueOf: Ref -> string) {
    && (forall v, k :: v in index && k in index[v] ==> k in items && valueOf(items[k]) == v)
    && (forall k :: k in items ==> valueOf(items[k]) in index && k in index[valueOf(items[k])])
    && (forall v :: v in index ==> index[v] != {})
  }

  lemma AddKeepsInverse(index: Index, items: map<string, Ref>, valueOf: Ref -> string, key: string, r: Ref)
    requires Inverts(index, items, valueOf)
    requires key in items ==> items[key] == r
    ensures Inverts(AddToIndex(index, valueOf(r), key), items[key := r], valueOf)
  {
    var index' := AddToIndex(index, valueOf(r), key);
    assert key in index'[valueOf(r)];
  }

  lemma RemoveKeepsInverse(index: Index, items: map<string, Ref>, valueOf: Ref -> string, key: string)
    requires Inverts(index, items, valueOf) && key in items
    ensures Inverts(RemoveFromIndex(index, valueOf(items[key]), key), items - {key}, valueOf)
  {
    var v := valueOf(items[key]);
    var index' := RemoveFromIndex(index, v, key);
    forall k | k in items - {key}
      ensures valueOf(items[k]) in index' && k in index'[valueOf(items[k])]
    {
      assert k in index[valueOf(items[k])];
      if valueOf(items[k]) == v {
        assert k in index[v] - {key};
      }
    }
  }

  function ReferrerKeyOf(): Ref -> string {
    (r: Ref) => ObjectKey(r.referrer)
  }

  function ReferentKeyOf(): Ref -> string {
    (r: Ref) => ObjectKey(r.referent)
  }

  // ---------------------------------------------------------------- the cache

  class CacheIndexers {
    var items: map<string, Ref>
    var byReferrer: Index
    var byReferent: Index

    ghost predicate Valid()
      reads this
    {
      && (forall k :: k in items ==> PlainRef(items[k]) && k == ReferenceKey(items[k]))
      && Inverts(byReferrer, items, ReferrerKeyOf())
      && Inverts(byReferent, items, ReferentKeyOf())
    }

    /** The plain set of pairs the three maps stand for. */
    ghost function Pairs(): (s: set<Ref>)
      reads this
    {
      set k | k in items :: items[k]
    }

    constructor ()
      ensures Valid() && Pairs() == {}
    {
      items, byReferrer, byReferent := map[], map[], map[];
    }

    lemma Lookup(r: Ref)
      requires Valid() && PlainRef(r)
      ensures r in Pairs() <==> ReferenceKey(r) in items
      ensures ReferenceKey(r) in items ==> items[ReferenceKey(r)] == r
    {
      if ReferenceKey(r) in items {
        ReferenceKeyInjective(r, items[ReferenceKey(r)]);
      }
    }

    /** SetObjectReference */
    method SetObjectReference(referrer: Object, referent: Object)
      requires Valid() && Plain(referrer) && Plain(referent)
      modifies this
      ensures Valid() && Pairs() == old(Pairs()) + {Ref(referrer, referent)}
    {
      var r := Ref(referrer, referent);
      var key := ReferenceKey(r);
      Lookup(r);
      AddKeepsInverse(byReferrer, items, ReferrerKeyOf(), key, r);
      AddKeepsInverse(byReferent, items, ReferentKeyOf(), key, r);
      PairsAfterSet(items, key, r);
      byReferrer := AddToIndex(byReferrer, ObjectKey(referrer), key);
      byReferent := AddToIndex(byReferent, ObjectKey(referent), key);
      items := items[key := r];
    }

    /** DeleteObjectReference */
    method DeleteObjectReference(referrer: Object, referent: Object)
      requires Valid() && Plain(referrer) && Plain(referent)
      modifies this
      ensures Valid() && Pairs() == old(Pairs()) - {Ref(referrer, referent)}
    {
      var r := Ref(referrer, referent);
      var key := ReferenceKey(r);
      Lookup(r);
      if key in items {
        RemoveKeepsInverse(byReferrer, items, ReferrerKeyOf(), key);
        RemoveKeepsInverse(byReferent, items, ReferentKeyOf(), key);
        PairsAfterDelete(items, key);
        byReferrer := RemoveFromIndex(byReferrer, ObjectKey(referrer), key);
        byReferent := RemoveFromIndex(byReferent, ObjectKey(referent), key);
        items := items - {key};
      }
    }

    /** ObjectReferred */
    method ObjectReferred(o: Object) returns (referred: bool)
      requires Valid() && Plain(o)
      ensures referred <==> exists r :: r in Pairs() && r.referent == o
    {
      KeysOfReferent(o);
      referred := ObjectKey(o) in byReferent && byReferent[ObjectKey(o)] != {};
    }

    lemma KeysOfReferent(o: Object)
      requires Valid() && Plain(o)
      ensures ObjectKey(o) in byReferent && byReferent[ObjectKey(o)] != {} <==>
                exists r :: r in Pairs() && r.referent == o
    {
      if ObjectKey(o) in byReferent {
        var keys := byReferent[ObjectKey(o)];
        assert keys != {};
        var k :| k in keys;
        ObjectKeyInjective(items[k].referent, o);
        assert items[k] in Pairs();
      }
      forall r | r in Pairs() && r.referent == o ensures ObjectKey(o) in byReferent {
        Lookup(r);
        assert ReferentKeyOf()(r) in byReferent;
      }
    }

    /** ListReferredObjects: each referent of the referrer once, in no particular order. */
    method ListReferredObjects(referrer: Object) returns (objs: seq<Object>)
      requires Valid() && Plain(referrer)
      ensures forall o :: o in objs <==> Ref(referrer, o) in Pairs()
      ensures forall o :: o in objs ==> Plain(o)
      ensures forall i, j :: 0 <= i < j < |objs| ==> objs[i] != objs[j]
    {
      var keys: set<string> := if ObjectKey(referrer) in byReferrer then byReferrer[ObjectKey(referrer)] else {};
      KeysOfReferrer(referrer, keys);
      objs := Referents(items, keys);
    }

    lemma KeysOfReferrer(referrer: Object, keys: set<string>)
      requires Valid() && Plain(referrer)
      requires keys == if ObjectKey(referrer) in byReferrer then byReferrer[ObjectKey(referrer)] else {}
      ensures forall k :: k in keys ==> k in items && items[k].referrer == referrer
      ensures forall o :: Ref(referrer, o) in Pairs() <==> exists k :: k in keys && items[k].referent == o
      ensures forall k, q :: k in keys && q in keys && items[k].referent == items[q].referent ==> k == q
    {
      forall k | k in keys ensures k in items && items[k].referrer == referrer {
        ObjectKeyInjective(items[k].referrer, referrer);
      }
      forall o ensures Ref(referrer, o) in Pairs() <==> exists k :: k in keys && items[k].referent == o {
        if Ref(referrer, o) in Pairs() {
          var k :| k in items && items[k] == Ref(referrer, o);
          assert ReferrerKeyOf()(items[k]) in byReferrer;
          assert k in keys;
        }
        if k :| k in keys && items[k].referent == o {
          assert items[k] == Ref(referrer, o);
        }
      }
    }
  }

  /** The referents of the records under the given keys, listed in map order, that is, in any order. */
  method Referents(items: map<string, Ref>, keys: set<string>) returns (objs: seq<Object>)
    requires keys <= items.Keys
    requires forall k, q :: k in keys && q in keys && items[k].referent == items[q].referent ==> k == q
    ensures forall o :: o in objs <==> exists k :: k in keys && items[k].referent == o
    ensures forall i, j :: 0 <= i < j < |objs| ==> objs[i] != objs[j]
  {
    objs := [];
    var rest := keys;
    while rest != {}
      invariant rest <= keys
      invariant forall o :: o in objs <==> exists k :: k in keys && k !in rest && items[k].referent == o
      invariant forall i, j :: 0 <= i < j < |objs| ==> objs[i] != objs[j]
      decreases rest
    {
      var k :| k in rest;
      assert items[k].referent !in objs;
      rest := rest - {k};
      objs := objs + [items[k].referent];
    }
  }

  lemma PairsAfterSet(items: map<string, Ref>, key: string, r: Ref)
    requires key in items ==> items[key] == r
    ensures var items' := items[key := r]; (set k | k in items' :: items'[k]) == (set k | k in items :: items[k]) + {r}
  {
    var items' := items[key := r];
    assert items'[key] == r;
    forall k | k in items ensures items[k] in (set k | k in items' :: items'[k]) {
      assert items'[k] == items[k];
    }
  }

  lemma PairsAfterDelete(items: map<string, Ref>, key: string)
    requires key in items && forall k :: k in items && items[k] == items[key] ==> k == key
    ensures var items' := items - {key};
            (set k | k in items' :: items'[k]) == (set k | k in items :: items[k]) - {items[key]}
  {
    var items' := items - {key};
    forall k | k in items' ensures items'[k] == items[k] && items'[k] != items[key] {
    }
    forall k | k in items && items[k] != items[key] ensures items[k] in (set k | k in items' :: items'[k]) {
      assert k in items';
    }
  }
}
