/**
 The object cache: one keyed store per supported kind. A snapshot copies every store; it is taken
 only if the digest of a text built from all UIDs and resource versions differs from the last one.
 The text has no separators and does not name the stores.
 */
module CacheSnapshots {
  import opened Common
  import Text

  datatype Kind =
    | Ingress | IngressClass | Service | Secret | EndpointSlice | HTTPRoute | UDPRoute | TCPRoute | TLSRoute
    | GRPCRoute | ReferenceGrant | Gateway | KongPlugin | KongClusterPlugin | KongConsumer | KongConsumerGroup
    | KongIngress | TCPIngress | UDPIngress | KongUpstreamPolicy | IngressClassParameters | KongServiceFacade
    | KongVault | KongCustomEntity | Unsupported(gvk: string)

  /** ListAllStores */
  const KINDS: seq<Kind> := [
    Ingress, IngressClass, Service, Secret, EndpointSlice, HTTPRoute, UDPRoute, TCPRoute, TLSRoute,
    GRPCRoute, ReferenceGrant, Gateway, KongPlugin, KongClusterPlugin, KongConsumer, KongConsumerGroup,
    KongIngress, TCPIngress, UDPIngress, KongUpstreamPolicy, IngressClassParameters, KongServiceFacade,
    KongVault, KongCustomEntity]

  datatype Object = Object(kind: Kind, namespace: string, name: string, uid: string, resourceVersion: string,
                           content: string)

  type Store = map<string, Object>
  type Contents = map<Kind, Store>

  /** namespacedKeyFunc and clusterWideKeyFunc */
  function Key(o: Object): string {
    if o.kind.IngressClass? || o.kind.KongClusterPlugin? || o.kind.KongVault? then o.name
    else o.namespace + "/" + o.name
  }

  /** One store per supported kind, every object in the store of its kind under its own key. */
  ghost predicate WellKeyed(c: Contents) {
    && (forall k :: k in c <==> !k.Unsupported?)
    && (forall k, x :: k in c && x in c[k] ==> c[k][x].kind == k && Key(c[k][x]) == x)
  }

  /** The object is somewhere in the cache. */
  ghost predicate Stored(c: Contents, o: Object) {
    exists k, x :: k in c && x in c[k] && c[k][x] == o
  }

  /** The same Kubernetes object: its kind and name, and its namespace unless the kind has none. */
  predicate SameObject(o: Object, p: Object) {
    o.kind == p.kind && o.name == p.name
      && (o.namespace == p.namespace || o.kind in {IngressClass, KongClusterPlugin, KongVault})
  }

  predicate PlainNamespace(o: Object) {
    '/' !in o.namespace
  }

  /** Objects of a kind share a key exactly if they are the same object. */
  lemma KeyIdentifies(o: Object, p: Object)
    requires o.kind == p.kind && !o.kind.Unsupported?
    ensures SameObject(o, p) ==> Key(o) == Key(p)
    ensures PlainNamespace(o) && PlainNamespace(p) ==> (Key(o) == Key(p) <==> SameObject(o, p))
  {
    if PlainNamespace(o) && PlainNamespace(p) && o.kind !in {IngressClass, KongClusterPlugin, KongVault}
      && Key(o) == Key(p) {
      Text.SplitUnique(o.namespace, o.name, '/', p.namespace, p.name);
    }
  }

  /** What is stored after an object was put in the store of its kind, and after it was taken out. */
  lemma StoredAfter(c: Contents, o: Object, p: Object)
    requires WellKeyed(c) && !o.kind.Unsupported?
    ensures Stored(c[o.kind := c[o.kind][Key(o) := o]], p) <==>
              p == o || (Stored(c, p) && !(p.kind == o.kind && Key(p) == Key(o)))
    ensures Stored(c[o.kind := c[o.kind] - {Key(o)}], p) <==> Stored(c, p) && !(p.kind == o.kind && Key(p) == Key(o))
  {
    hide Key;
    StoredAtKey(c, p);
    var added, removed := c[o.kind := c[o.kind][Key(o) := o]], c[o.kind := c[o.kind] - {Key(o)}];
    assert WellKeyed(added) && WellKeyed(removed);
    StoredAtKey(added, p);
    StoredAtKey(removed, p);
    hide Stored;
  }

  lemma StoredAtKey(c: Contents, p: Object)
    requires WellKeyed(c)
    ensures Stored(c, p) <==> p.kind in c && Key(p) in c[p.kind] && c[p.kind][Key(p)] == p
  {
    hide Key;
  }

  /** In terms of objects: adding and deleting concern the same object only. */
  lemma StoredObjects(c: Contents, o: Object)
    requires WellKeyed(c) && !o.kind.Unsupported?
    ensures StoresInstead(c, c[o.kind := c[o.kind][Key(o) := o]], o, true)
    ensures StoresInstead(c, c[o.kind := c[o.kind] - {Key(o)}], o, false)
  {
    var added, removed := c[o.kind := c[o.kind][Key(o) := o]], c[o.kind := c[o.kind] - {Key(o)}];
    forall p
      ensures SameObject(p, o) ==> (Stored(added, p) <==> p == o) && !Stored(removed, p)
      ensures PlainNamespace(p) && PlainNamespace(o) && !SameObject(p, o) ==>
                (Stored(added, p) <==> Stored(c, p)) && (Stored(removed, p) <==> Stored(c, p))
    {
      StoredAfter(c, o, p);
      hide Stored, WellKeyed;
      if p.kind == o.kind {
        KeyIdentifies(p, o);
      }
      hide Key;
    }
    hide Stored, Key, WellKeyed;
  }

  /** Of the object, the form o is stored afterwards, or none; every other object is as it was. */
  ghost predicate StoresInstead(before: Contents, after: Contents, o: Object, kept: bool) {
    && (forall p :: SameObject(p, o) ==> (Stored(after, p) <==> kept && p == o))
    && (forall p :: PlainNamespace(p) && PlainNamespace(o) && !SameObject(p, o) ==>
          (Stored(after, p) <==> Stored(before, p)))
  }

  lemma KindsComplete(k: Kind)
    ensures k in KINDS <==> !k.Unsupported?
  {
    assert forall i :: 0 <= i < |KINDS| ==> !KINDS[i].Unsupported?;
    match k
    case Ingress => assert KINDS[0] == k;
    case IngressClass => assert KINDS[1] == k;
    case Service => assert KINDS[2] == k;
    case Secret => assert KINDS[3] == k;
    case EndpointSlice => assert KINDS[4] == k;
    case HTTPRoute => assert KINDS[5] == k;
    case UDPRoute => assert KINDS[6] == k;
    case TCPRoute => assert KINDS[7] == k;
    case TLSRoute => assert KINDS[8] == k;
    case GRPCRoute => assert KINDS[9] == k;
    case ReferenceGrant => assert KINDS[10] == k;
    case Gateway => assert KINDS[11] == k;
    case KongPlugin => assert KINDS[12] == k;
    case KongClusterPlugin => assert KINDS[13] == k;
    case KongConsumer => assert KINDS[14] == k;
    case KongConsumerGroup => assert KINDS[15] == k;
    case KongIngress => assert KINDS[16] == k;
    case TCPIngress => assert KINDS[17] == k;
    case UDPIngress => assert KINDS[18] == k;
    case KongUpstreamPolicy => assert KINDS[19] == k;
    case IngressClassParameters => assert KINDS[20] == k;
    case KongServiceFacade => assert KINDS[21] == k;
    case KongVault => assert KINDS[22] == k;
    case KongCustomEntity => assert KINDS[23] == k;
    case Unsupported(_) =>
  }

  // ---------------------------------------------------------------- the text that is hashed

  function EntryText(o: Object): string {
    o.uid + o.resourceVersion
  }

  function EntryTexts(list: seq<Object>): seq<string> {
    if list == [] then [] else [EntryText(list[0])] + EntryTexts(list[1..])
  }

  predicate Distinct<T(==)>(s: seq<T>) {
    forall i, j :: 0 <= i < j < |s| ==> s[i] != s[j]
  }

  /** A listing of a store: every object once, in any order. */
  ghost predicate Lists(list: seq<Object>, s: Store) {
    && (forall o :: o in list <==> exists x :: x in s && s[x] == o)
    && Distinct(list)
  }

  function Concat(texts: seq<string>): string {
    if texts == [] then "" else texts[0] + Concat(texts[1..])
  }

  lemma {:induction false} ConcatAppend(a: seq<string>, b: seq<string>)
    ensures Concat(a + b) == Concat(a) + Concat(b)
  {
    if a == [] {
      assert a + b == b;
    } else {
      ConcatAppend(a[1..], b);
      assert (a + b)[1..] == a[1..] + b;
    }
  }

  /** The sorted texts of a store, for one listing of it. */
  function SortedTexts(list: seq<Object>): seq<string> {
    Text.Sort(EntryTexts(list))
  }

  lemma {:induction false} EntryTextsElements(list: seq<Object>)
    ensures |EntryTexts(list)| == |list| && forall i :: 0 <= i < |list| ==> EntryTexts(list)[i] == EntryText(list[i])
  {
    if list != [] {
      EntryTextsElements(list[1..]);
    }
  }

  function Without<T>(m: seq<T>, i: nat): (r: seq<T>)
    requires i < |m|
    ensures |r| == |m| - 1
  {
    m[..i] + m[i + 1..]
  }

  lemma MultisetWithout<T>(m: seq<T>, i: nat)
    requires i < |m|
    ensures multiset(m) == multiset(Without(m, i)) + multiset{m[i]}
  {
    assert m == m[..i] + [m[i]] + m[i + 1..];
  }

  lemma CancelOne<T>(a: multiset<T>, b: multiset<T>, x: T)
    requires a + multiset{x} == b + multiset{x}
    ensures a == b
  {
    assert a == (a + multiset{x}) - multiset{x};
    assert b == (b + multiset{x}) - multiset{x};
  }

  /** Taking one object out of a listing takes its text out of the texts. */
  lemma EntryTextsWithout(m: seq<Object>, i: nat)
    requires i < |m|
    ensures multiset(EntryTexts(m)) == multiset(EntryTexts(Without(m, i))) + multiset{EntryText(m[i])}
  {
    hide EntryTexts, EntryText, Without;
    var texts, fewer := EntryTexts(m), EntryTexts(Without(m, i));
    EntryTextsElements(m);
    EntryTextsElements(Without(m, i));
    assert fewer == Without(texts, i) by {
      forall k | 0 <= k < |fewer| ensures fewer[k] == Without(texts, i)[k] {
        WithoutAt(m, i, k);
        WithoutAt(texts, i, k);
      }
    }
    MultisetWithout(texts, i);
  }

  lemma WithoutAt<T>(m: seq<T>, i: nat, k: nat)
    requires i < |m| && k < |m| - 1
    ensures Without(m, i)[k] == if k < i then m[k] else m[k + 1]
  {
  }

  lemma {:induction false} EntryTextsOfPermutation(l: seq<Object>, m: seq<Object>)
    requires multiset(l) == multiset(m)
    ensures multiset(EntryTexts(l)) == multiset(EntryTexts(m))
    decreases |l|
  {
    if l == [] {
      assert |multiset(m)| == 0;
    } else {
      hide EntryTexts, EntryText, Without;
      assert l[0] in multiset(m);
      var i :| 0 <= i < |m| && m[i] == l[0];
      var l', m' := Without(l, 0), Without(m, i);
      MultisetWithout(l, 0);
      MultisetWithout(m, i);
      CancelOne(multiset(l'), multiset(m'), l[0]);
      EntryTextsOfPermutation(l', m');
      EntryTextsWithout(l, 0);
      EntryTextsWithout(m, i);
    }
  }

  lemma SameElementsSameMultiset<T>(a: seq<T>, b: seq<T>)
    requires (forall x :: x in a <==> x in b) && Distinct(a) && Distinct(b)
    ensures multiset(a) == multiset(b)
  {
    forall x ensures multiset(a)[x] == multiset(b)[x] {
      OnceInMultiset(a, x);
      OnceInMultiset(b, x);
    }
  }

  lemma {:induction false} OnceInMultiset<T>(a: seq<T>, x: T)
    requires Distinct(a)
    ensures multiset(a)[x] == if x in a then 1 else 0
  {
    if a != [] {
      assert a == [a[0]] + a[1..];
      OnceInMultiset(a[1..], x);
    }
  }

  /** The order in which a store lists its objects does not reach the hash. */
  lemma ListingOrderIrrelevant(l: seq<Object>, m: seq<Object>, s: Store)
    requires Lists(l, s) && Lists(m, s)
    ensures SortedTexts(l) == SortedTexts(m)
  {
    SameElementsSameMultiset(l, m);
    EntryTextsOfPermutation(l, m);
    Text.SortedUnique(SortedTexts(l), SortedTexts(m));
  }

  /** Some listing of a store. */
  ghost function ListingOf(s: Store): seq<Object> {
    if s == map[] then [] else
      var x :| x in s;
      [s[x]] + ListingOf(s - {x})
  }

  lemma {:induction false} ListingOfLists(s: Store)
    requires forall x :: x in s ==> Key(s[x]) == x
    ensures Lists(ListingOf(s), s)
  {
    if s != map[] {
      var x :| x in s && ListingOf(s) == [s[x]] + ListingOf(s - {x});
      ListingOfLists(s - {x});
      var list, rest := ListingOf(s), ListingOf(s - {x});
      forall o ensures o in list <==> exists y :: y in s && s[y] == o {
        if y :| y in s && s[y] == o {
          assert y == x || y in s - {x};
        }
        if o in rest {
          var y :| y in s - {x} && (s - {x})[y] == o;
          assert s[y] == o;
        }
      }
      assert s[x] !in rest by {
        assert forall y :: y in s - {x} ==> s[y] != s[x];
      }
    }
  }

  /** The texts of all stores, store after store. */
  ghost function TextsFrom(c: Contents, kinds: seq<Kind>): seq<string>
    requires forall k :: k in kinds ==> k in c
  {
    if kinds == [] then [] else SortedTexts(ListingOf(c[kinds[0]])) + TextsFrom(c, kinds[1..])
  }

  ghost function AllTexts(c: Contents): seq<string>
    requires WellKeyed(c)
  {
    KindsIn(c);
    TextsFrom(c, KINDS)
  }

  lemma KindsIn(c: Contents)
    requires WellKeyed(c)
    ensures forall k :: k in KINDS <==> k in c
  {
    forall k ensures k in KINDS <==> k in c {
      KindsComplete(k);
    }
  }

  /** What is fed to the hash. */
  ghost function Stream(c: Contents): string
    requires WellKeyed(c)
  {
    Concat(AllTexts(c))
  }

  // ---------------------------------------------------------------- decoding

  predicate IsHex(ch: char) {
    '0' <= ch <= '9' || 'a' <= ch <= 'f' || 'A' <= ch <= 'F'
  }

  /** The textual form of a UUID, section 3 of RFC 4122: 8-4-4-4-12 hexadecimal digits. */
  predicate IsUid(u: string) {
    && |u| == 36
    && forall i :: 0 <= i < 36 ==> if i == 8 || i == 13 || i == 18 || i == 23 then u[i] == '-' else IsHex(u[i])
  }

  predicate IsVersion(v: string) {
    forall i :: 0 <= i < |v| ==> Text.IsDigit(v[i])
  }

  predicate IsEntryText(t: string) {
    |t| >= 36 && IsUid(t[..36]) && IsVersion(t[36..])
  }

  predicate AllEntryTexts(ts: seq<string>) {
    forall i :: 0 <= i < |ts| ==> IsEntryText(ts[i])
  }

  /** After a version, the next UID is recognised by its first dash, eight characters in. */
  lemma VersionEnds(v: string, ts: seq<string>)
    requires IsVersion(v) && AllEntryTexts(ts)
    ensures var s := v + Concat(ts);
            if ts == [] then |s| == |v| && forall i :: 0 <= i < |s| ==> s[i] != '-'
            else |v| + 8 < |s| && s[|v| + 8] == '-' && forall i :: 0 <= i < |v| + 8 ==> s[i] != '-'
  {
    var s := v + Concat(ts);
    if ts != [] {
      var t := ts[0];
      assert IsEntryText(t);
      assert forall i :: 0 <= i < 36 ==> t[..36][i] == t[i];
      assert forall i :: |v| <= i < |v| + 36 ==> s[i] == t[i - |v|];
      assert s[|v| + 8] == t[8] == '-';
    }
  }

  lemma VersionUnique(v: string, a: seq<string>, w: string, b: seq<string>)
    requires IsVersion(v) && IsVersion(w) && AllEntryTexts(a) && AllEntryTexts(b)
    requires v + Concat(a) == w + Concat(b)
    ensures v == w && Concat(a) == Concat(b)
  {
    VersionEnds(v, a);
    VersionEnds(w, b);
    var s := v + Concat(a);
    assert |v| == |w|;
    assert v == s[..|v|] == w;
    assert Concat(a) == s[|v|..] == Concat(b);
  }

  lemma EmptyText(ts: seq<string>)
    requires AllEntryTexts(ts)
    ensures ts == [] <==> Concat(ts) == ""
  {
    if ts != [] {
      assert |Concat(ts)| >= |ts[0]|;
    }
  }

  /** The separator-free text has one reading. */
  lemma {:induction false} DecodeUnique(a: seq<string>, b: seq<string>)
    requires AllEntryTexts(a) && AllEntryTexts(b) && Concat(a) == Concat(b)
    ensures a == b
  {
    EmptyText(a);
    EmptyText(b);
    if a != [] {
      var s := Concat(a);
      assert a[0][..36] == s[..36] == b[0][..36];
      assert s[36..] == a[0][36..] + Concat(a[1..]);
      assert s[36..] == b[0][36..] + Concat(b[1..]);
      VersionUnique(a[0][36..], a[1..], b[0][36..], b[1..]);
      assert a[0] == a[0][..36] + a[0][36..] == b[0];
      DecodeUnique(a[1..], b[1..]);
      assert a == [a[0]] + a[1..] && b == [b[0]] + b[1..];
    }
  }

  // ---------------------------------------------------------------- what equal streams mean

  datatype Version = Version(uid: string, resourceVersion: string)

  function Versions(s: Store): set<Version> {
    set x | x in s :: Version(s[x].uid, s[x].resourceVersion)
  }

  /** Objects as the API server hands them out: UIDs and versions well formed, and no UID twice in a store. */
  ghost predicate FromCluster(c: Contents) {
    && WellKeyed(c)
    && (forall k, x :: k in c && x in c[k] ==> IsUid(c[k][x].uid) && IsVersion(c[k][x].resourceVersion))
    && (forall k, x, y :: k in c && x in c[k] && y in c[k] && c[k][x].uid == c[k][y].uid ==> x == y)
  }

  /** A UID belongs to one kind. */
  ghost predicate UidsHaveKind(c: Contents, kindOf: string -> Kind) {
    forall k, x :: k in c && x in c[k] ==> kindOf(c[k][x].uid) == k
  }

  ghost predicate SameVersions(c: Contents, d: Contents) {
    c.Keys == d.Keys && forall k :: k in c ==> Versions(c[k]) == Versions(d[k])
  }

  /** A text is among the texts of a store exactly when the store holds that version. */
  lemma StoreTexts(s: Store, t: string)
    requires forall x :: x in s ==> Key(s[x]) == x
    ensures t in EntryTexts(ListingOf(s)) <==> exists x :: x in s && EntryText(s[x]) == t
    ensures t in SortedTexts(ListingOf(s)) <==> t in EntryTexts(ListingOf(s))
  {
    hide ListingOf, EntryTexts, EntryText, Key, Text.Sort;
    var list := ListingOf(s);
    ListingOfLists(s);
    EntryTextsElements(list);
    var texts := EntryTexts(list);
    assert t in SortedTexts(list) <==> t in multiset(SortedTexts(list));
    if x :| x in s && EntryText(s[x]) == t {
      assert s[x] in list;
      var i :| 0 <= i < |list| && list[i] == s[x];
      assert texts[i] == t;
    }
    if t in texts {
      var i :| 0 <= i < |texts| && texts[i] == t;
      assert list[i] in list;
    }
  }

  lemma {:induction false} TextsFromElements(c: Contents, kinds: seq<Kind>, t: string)
    requires WellKeyed(c) && forall k :: k in kinds ==> k in c
    ensures t in TextsFrom(c, kinds) <==> exists k, x :: k in kinds && x in c[k] && EntryText(c[k][x]) == t
  {
    if kinds != [] {
      var first, rest := kinds[0], kinds[1..];
      StoreTexts(c[first], t);
      hide SortedTexts, ListingOf, EntryText, WellKeyed;
      assert kinds == [first] + rest;
      TextsFromElements(c, rest, t);
      var texts, others := SortedTexts(ListingOf(c[first])), TextsFrom(c, rest);
      assert TextsFrom(c, kinds) == texts + others;
      hide TextsFrom;
      assert t in texts + others <==> t in texts || t in others;
      if k, x :| k in kinds && x in c[k] && EntryText(c[k][x]) == t {
        assert k == first || k in rest;
      }
    }
  }

  lemma TextsWellFormed(c: Contents)
    requires FromCluster(c)
    ensures AllEntryTexts(AllTexts(c))
  {
    KindsIn(c);
    var ts := AllTexts(c);
    forall i | 0 <= i < |ts| ensures IsEntryText(ts[i]) {
      TextsFromElements(c, KINDS, ts[i]);
      assert ts[i] in ts;
      var k, x :| k in KINDS && x in c[k] && EntryText(c[k][x]) == ts[i];
      SplitEntry(c[k][x]);
    }
  }

  lemma SplitEntry(o: Object)
    requires IsUid(o.uid)
    ensures EntryText(o)[..36] == o.uid && EntryText(o)[36..] == o.resourceVersion
  {
  }

  /** Equal streams mean the same (UID, version) pairs in every store. */
  lemma StreamDeterminesVersions(c: Contents, d: Contents, kindOf: string -> Kind)
    requires FromCluster(c) && FromCluster(d) && UidsHaveKind(c, kindOf) && UidsHaveKind(d, kindOf)
    requires Stream(c) == Stream(d)
    ensures SameVersions(c, d)
  {
    TextsWellFormed(c);
    TextsWellFormed(d);
    DecodeUnique(AllTexts(c), AllTexts(d));
    KindsIn(c);
    KindsIn(d);
    forall k | k in c ensures Versions(c[k]) == Versions(d[k]) {
      VersionsCarriedOver(c, d, kindOf, k);
      VersionsCarriedOver(d, c, kindOf, k);
    }
  }

  lemma VersionsCarriedOver(c: Contents, d: Contents, kindOf: string -> Kind, k: Kind)
    requires FromCluster(c) && FromCluster(d) && UidsHaveKind(c, kindOf) && UidsHaveKind(d, kindOf)
    requires AllTexts(c) == AllTexts(d) && k in c && k in d
    ensures Versions(c[k]) <= Versions(d[k])
  {
    KindsIn(c);
    KindsIn(d);
    forall x | x in c[k] ensures Version(c[k][x].uid, c[k][x].resourceVersion) in Versions(d[k]) {
      var t := EntryText(c[k][x]);
      TextsFromElements(c, KINDS, t);
      TextsFromElements(d, KINDS, t);
      var k', y :| k' in KINDS && y in d[k'] && EntryText(d[k'][y]) == t;
      SplitEntry(c[k][x]);
      SplitEntry(d[k'][y]);
      assert k' == k;
    }
  }

  /** Conversely, the same versions in every store give the same stream. */
  lemma VersionsDetermineStream(c: Contents, d: Contents)
    requires FromCluster(c) && FromCluster(d) && SameVersions(c, d)
    ensures Stream(c) == Stream(d)
  {
    KindsIn(c);
    KindsIn(d);
    SameTexts(c, d, KINDS);
  }

  lemma {:induction false} SameTexts(c: Contents, d: Contents, kinds: seq<Kind>)
    requires FromCluster(c) && FromCluster(d) && SameVersions(c, d)
    requires forall k :: k in kinds ==> k in c && k in d
    ensures TextsFrom(c, kinds) == TextsFrom(d, kinds)
  {
    if kinds != [] {
      SameTexts(c, d, kinds[1..]);
      SameStoreTexts(c, d, kinds[0]);
    }
  }

  lemma SameStoreTexts(c: Contents, d: Contents, k: Kind)
    requires FromCluster(c) && FromCluster(d) && k in c && k in d && Versions(c[k]) == Versions(d[k])
    ensures SortedTexts(ListingOf(c[k])) == SortedTexts(ListingOf(d[k]))
  {
    hide FromCluster, Versions, ListingOf, EntryTexts, Text.Sort;
    var a, b := EntryTexts(ListingOf(c[k])), EntryTexts(ListingOf(d[k]));
    DistinctTexts(c, k);
    DistinctTexts(d, k);
    forall t ensures t in a <==> t in b {
      StoreHasText(c, d, k, t);
      StoreHasText(d, c, k, t);
    }
    SameElementsSameMultiset(a, b);
    Text.SortedUnique(Text.Sort(a), Text.Sort(b));
  }

  lemma StoreHasText(c: Contents, d: Contents, k: Kind, t: string)
    requires FromCluster(c) && FromCluster(d) && k in c && k in d && Versions(c[k]) == Versions(d[k])
    ensures t in EntryTexts(ListingOf(c[k])) ==> t in EntryTexts(ListingOf(d[k]))
  {
    hide ListingOf, EntryTexts, SortedTexts, Text.Sort;
    StoreTexts(c[k], t);
    StoreTexts(d[k], t);
    if x :| x in c[k] && EntryText(c[k][x]) == t {
      assert Version(c[k][x].uid, c[k][x].resourceVersion) in Versions(d[k]);
    }
  }

  lemma DistinctTexts(c: Contents, k: Kind)
    requires FromCluster(c) && k in c
    ensures Distinct(EntryTexts(ListingOf(c[k])))
  {
    hide ListingOf, EntryTexts;
    var list := ListingOf(c[k]);
    ListingOfLists(c[k]);
    EntryTextsElements(list);
    forall i, j | 0 <= i < j < |list| ensures EntryText(list[i]) != EntryText(list[j]) {
      assert list[i] in list && list[j] in list;
      SplitEntry(list[i]);
      SplitEntry(list[j]);
    }
  }

  /** Under the API server's rule that a UID and a version fix the object, the caches are then equal. */
  lemma VersionsDetermineContents(c: Contents, d: Contents)
    requires FromCluster(c) && FromCluster(d) && SameVersions(c, d)
    requires forall k, x, y :: (k in c && k in d && x in c[k] && y in d[k]
               && c[k][x].uid == d[k][y].uid
               && c[k][x].resourceVersion == d[k][y].resourceVersion) ==> c[k][x] == d[k][y]
    ensures c == d
  {
    forall k | k in c ensures c[k] == d[k] {
      forall x | x in c[k] ensures x in d[k] && d[k][x] == c[k][x] {
        assert Version(c[k][x].uid, c[k][x].resourceVersion) in Versions(d[k]);
      }
      forall x | x in d[k] ensures x in c[k] {
        assert Version(d[k][x].uid, d[k][x].resourceVersion) in Versions(c[k]);
      }
    }
  }

  /** A digest without collisions, never empty: SHA-256 in base 32. */
  ghost predicate CollisionFree(digest: string -> string) {
    && (forall s, t :: digest(s) == digest(t) ==> s == t)
    && (forall s :: digest(s) != "")
  }

  /** The digests of two caches agree exactly when every store holds the same versions. */
  lemma DigestDetectsChange(c: Contents, d: Contents, kindOf: string -> Kind, digest: string -> string)
    requires FromCluster(c) && FromCluster(d) && UidsHaveKind(c, kindOf) && UidsHaveKind(d, kindOf)
    requires CollisionFree(digest)
    ensures digest(Stream(c)) == digest(Stream(d)) <==> SameVersions(c, d)
  {
    hide UidsHaveKind, Stream, SameVersions;
    if digest(Stream(c)) == digest(Stream(d)) {
      StreamDeterminesVersions(c, d, kindOf);
    }
    if SameVersions(c, d) {
      VersionsDetermineStream(c, d);
    }
  }

  /** A cache holding one object. */
  function Single(o: Object): Contents
    requires !o.kind.Unsupported?
  {
    Empty()[o.kind := map[Key(o) := o]]
  }

  /** If a UID could occur in two kinds the stream would not tell them apart. */
  lemma StreamIgnoresKinds(o: Object, k: Kind)
    requires !o.kind.Unsupported? && !k.Unsupported? && k != o.kind
    ensures var p := o.(kind := k);
            && WellKeyed(Single(o)) && WellKeyed(Single(p))
            && Stream(Single(o)) == Stream(Single(p))
            && !SameVersions(Single(o), Single(p))
  {
    var p := o.(kind := k);
    SingleStream(o);
    SingleStream(p);
    assert Versions(Single(p)[o.kind]) == {};
    assert Single(o)[o.kind][Key(o)] == o;
    assert Version(o.uid, o.resourceVersion) in Versions(Single(o)[o.kind]);
  }

  lemma SingleStream(o: Object)
    requires !o.kind.Unsupported?
    ensures WellKeyed(Single(o)) && Stream(Single(o)) == EntryText(o)
  {
    KindsIn(Single(o));
    KindsDistinct();
    SingleTexts(o, KINDS);
  }

  lemma KindsDistinct()
    ensures Distinct(KINDS)
  {
    forall i | 0 <= i < |KINDS| ensures Position(KINDS[i]) == i {
    }
  }

  function Position(k: Kind): nat {
    match k
    case Ingress => 0 case IngressClass => 1 case Service => 2 case Secret => 3 case EndpointSlice => 4
    case HTTPRoute => 5 case UDPRoute => 6 case TCPRoute => 7 case TLSRoute => 8 case GRPCRoute => 9
    case ReferenceGrant => 10 case Gateway => 11 case KongPlugin => 12 case KongClusterPlugin => 13
    case KongConsumer => 14 case KongConsumerGroup => 15 case KongIngress => 16 case TCPIngress => 17
    case UDPIngress => 18 case KongUpstreamPolicy => 19 case IngressClassParameters => 20
    case KongServiceFacade => 21 case KongVault => 22 case KongCustomEntity => 23 case Unsupported(_) => 24
  }

  lemma SingleTexts(o: Object, kinds: seq<Kind>)
    requires !o.kind.Unsupported? && Distinct(kinds) && forall k :: k in kinds ==> k in Single(o)
    ensures Concat(TextsFrom(Single(o), kinds)) == if o.kind in kinds then EntryText(o) else ""
  {
    hide *;
    forall k | k in kinds ensures StoreText(Single(o), k) == if k == o.kind then EntryText(o) else "" {
      SingleStore(o, k);
    }
    OneText(Single(o), kinds, o.kind, EntryText(o));
  }

  ghost function StoreText(c: Contents, k: Kind): string
    requires k in c
  {
    Concat(SortedTexts(ListingOf(c[k])))
  }

  /** If one store alone has a text, that is the whole text. */
  lemma {:induction false} OneText(c: Contents, kinds: seq<Kind>, kind: Kind, text: string)
    requires Distinct(kinds) && forall k :: k in kinds ==> k in c && StoreText(c, k) == if k == kind then text else ""
    ensures Concat(TextsFrom(c, kinds)) == if kind in kinds then text else ""
  {
    hide SortedTexts, ListingOf;
    if kinds != [] {
      var k := kinds[0];
      assert kinds == [k] + kinds[1..] && k !in kinds[1..];
      OneText(c, kinds[1..], kind, text);
      ConcatAppend(SortedTexts(ListingOf(c[k])), TextsFrom(c, kinds[1..]));
      hide Concat;
    }
  }

  lemma SingleStore(o: Object, k: Kind)
    requires !o.kind.Unsupported? && k in Single(o)
    ensures StoreText(Single(o), k) == if k == o.kind then EntryText(o) else ""
  {
    hide SortedTexts, EntryText, ListingOf;
    if k == o.kind {
      SingleListing(o);
    } else {
      assert Single(o)[k] == map[];
      NoTexts();
    }
  }

  lemma NoTexts()
    ensures SortedTexts(ListingOf(map[])) == []
  {
  }

  lemma SingleListing(o: Object)
    ensures SortedTexts(ListingOf(map[Key(o) := o])) == [EntryText(o)]
    ensures Concat([EntryText(o)]) == EntryText(o)
  {
    var s := map[Key(o) := o];
    assert s[Key(o)] == o;
    assert forall x :: x in s ==> s[x] == o && s - {x} == map[];
    assert ListingOf(s) == [o] + ListingOf(map[]);
    assert EntryTexts([o]) == [EntryText(o)];
  }

  // ---------------------------------------------------------------- the stores

  class CacheStores {
    var stores: Contents

    ghost predicate Valid()
      reads this
    {
      WellKeyed(stores)
    }

    /** NewCacheStores */
    constructor ()
      ensures Valid() && forall k :: k in stores ==> stores[k] == map[]
    {
      stores := Empty();
    }

    /** Add: an unsupported kind is refused. */
    method Add(o: Object) returns (ok: bool)
      requires Valid()
      modifies this
      ensures Valid() && ok == !o.kind.Unsupported?
      ensures stores == if ok then old(stores)[o.kind := old(stores)[o.kind][Key(o) := o]] else old(stores)
      ensures ok ==> StoresInstead(old(stores), stores, o, true)
    {
      ok := !o.kind.Unsupported?;
      if ok {
        StoredObjects(stores, o);
        stores := stores[o.kind := stores[o.kind][Key(o) := o]];
      }
    }

    /** Delete: removing an absent object is no error. */
    method Delete(o: Object) returns (ok: bool)
      requires Valid()
      modifies this
      ensures Valid() && ok == !o.kind.Unsupported?
      ensures stores == if ok then old(stores)[o.kind := old(stores)[o.kind] - {Key(o)}] else old(stores)
      ensures ok ==> StoresInstead(old(stores), stores, o, false)
    {
      ok := !o.kind.Unsupported?;
      if ok {
        StoredObjects(stores, o);
        stores := stores[o.kind := stores[o.kind] - {Key(o)}];
      }
    }

    /** Get: an object of the same kind stored under the same key, if there is one. */
    method Get(o: Object) returns (item: Option<Object>, ok: bool)
      requires Valid()
      ensures ok == !o.kind.Unsupported?
      ensures item.Some? ==> Stored(stores, item.value) && item.value.kind == o.kind && Key(item.value) == Key(o)
      ensures item.None? ==> forall x :: Stored(stores, x) ==> x.kind != o.kind || Key(x) != Key(o)
      ensures item.Some? && PlainNamespace(o) && PlainNamespace(item.value) ==> SameObject(item.value, o)
      ensures item.None? ==> forall x :: SameObject(x, o) ==> !Stored(stores, x)
    {
      ok, item := !o.kind.Unsupported?, None;
      if ok && Key(o) in stores[o.kind] {
        item := Some(stores[o.kind][Key(o)]);
        KeyIdentifies(item.value, o);
      }
      forall x | SameObject(x, o) && ok ensures Key(x) == Key(o) {
        KeyIdentifies(x, o);
      }
    }

    /** cache.Store.List: every object of a store once, in no particular order. */
    method List(kind: Kind) returns (list: seq<Object>)
      requires Valid() && kind in stores
      ensures Lists(list, stores[kind])
    {
      list := ListStore(stores[kind]);
    }

    /** The hashing loop of TakeSnapshotIfChanged. */
    method ComputeText() returns (text: string)
      requires Valid()
      ensures text == Stream(stores)
    {
      KindsIn(stores);
      text := ComputeTextOf(KINDS);
    }

    method ComputeTextOf(kinds: seq<Kind>) returns (text: string)
      requires Valid() && forall k :: k in kinds ==> k in stores
      ensures text == Concat(TextsFrom(stores, kinds))
    {
      text := "";
      for i := 0 to |kinds|
        invariant text == Concat(TextsFrom(stores, kinds[..i]))
      {
        var list := List(kinds[i]);
        var values := SortedTexts(list);
        var written := WriteAll(text, values);
        hide Concat, TextsFrom, SortedTexts, WellKeyed, Lists;
        TextsSnoc(stores, kinds, i, list, text);
        text := written;
      }
      assert kinds[..|kinds|] == kinds;
    }

    /** takeSnapshot: a copy of every object goes into a fresh cache. */
    method TakeSnapshot() returns (snapshot: CacheStores)
      requires Valid()
      ensures fresh(snapshot) && snapshot.Valid() && snapshot.stores == stores
    {
      KindsIn(stores);
      snapshot := new CacheStores();
      CopyStores(snapshot, KINDS);
      CopyComplete(stores, snapshot.stores, KINDS);
    }

    method CopyStores(snapshot: CacheStores, kinds: seq<Kind>)
      requires Valid() && snapshot != this && snapshot.Valid() && forall k :: k in kinds ==> k in stores
      requires forall k :: k in snapshot.stores ==> snapshot.stores[k] == map[]
      modifies snapshot
      ensures snapshot.Valid()
      ensures forall k :: k in kinds ==> k in snapshot.stores && snapshot.stores[k] == stores[k]
    {
      hide WellKeyed, Lists;
      SameKinds(stores, snapshot.stores);
      for i := 0 to |kinds|
        invariant snapshot.Valid() && snapshot.stores.Keys == stores.Keys
        invariant forall k :: k in stores ==> Within(snapshot.stores[k], stores[k])
        invariant forall j :: 0 <= j < i ==> snapshot.stores[kinds[j]] == stores[kinds[j]]
      {
        var list := List(kinds[i]);
        snapshot.CopyAll(list, stores, kinds[i]);
      }
    }

    /** Add copies of the objects listed from one store of another cache. */
    method CopyAll(list: seq<Object>, ghost source: Contents, ghost kind: Kind)
      requires Valid() && WellKeyed(source) && kind in source && kind in stores && Lists(list, source[kind])
      requires Within(stores[kind], source[kind])
      modifies this
      ensures Valid() && stores == old(stores)[kind := source[kind]]
    {
      hide WellKeyed, Lists, Key;
      for j := 0 to |list|
        invariant Valid() && kind in stores && Within(stores[kind], source[kind])
        invariant stores == old(stores)[kind := stores[kind]]
        invariant forall n :: 0 <= n < j ==> Key(list[n]) in stores[kind]
      {
        ListedAt(source, kind, list, j);
        var ok := Add(list[j]);
      }
      ListedAll(source, kind, list, stores[kind]);
    }

    /** TakeSnapshotIfChanged: an empty hash and no snapshot if the digest is the previous one. */
    method TakeSnapshotIfChanged(previousHash: string, digest: string -> string)
      returns (snapshot: CacheStores?, newHash: string)
      requires Valid() && forall s :: digest(s) != ""
      ensures digest(Stream(stores)) == previousHash ==> newHash == "" && snapshot == null
      ensures digest(Stream(stores)) != previousHash ==>
                newHash == digest(Stream(stores)) && snapshot != null && fresh(snapshot) && snapshot.Valid()
                  && snapshot.stores == stores
    {
      var text := ComputeText();
      newHash := digest(text);
      if newHash == previousHash {
        return null, "";
      }
      snapshot := TakeSnapshot();
    }
  }

  lemma SameKinds(c: Contents, d: Contents)
    requires WellKeyed(c) && WellKeyed(d)
    ensures c.Keys == d.Keys
  {
  }

  lemma CopyComplete(c: Contents, d: Contents, kinds: seq<Kind>)
    requires WellKeyed(c) && WellKeyed(d) && kinds == KINDS
    requires forall k :: k in kinds ==> k in c && k in d && d[k] == c[k]
    ensures d == c
  {
    KindsIn(c);
    SameKinds(c, d);
  }

  lemma ListedAt(c: Contents, kind: Kind, list: seq<Object>, j: nat)
    requires WellKeyed(c) && kind in c && Lists(list, c[kind]) && j < |list|
    ensures list[j].kind == kind && !kind.Unsupported? && Key(list[j]) in c[kind] && c[kind][Key(list[j])] == list[j]
  {
    assert list[j] in list;
  }

  lemma ListedAll(c: Contents, kind: Kind, list: seq<Object>, copy: Store)
    requires WellKeyed(c) && kind in c && Lists(list, c[kind])
    requires Within(copy, c[kind]) && forall n :: 0 <= n < |list| ==> Key(list[n]) in copy
    ensures copy == c[kind]
  {
    forall x | x in c[kind] ensures x in copy {
      assert c[kind][x] in list;
    }
  }

  /** Every object of a is in b under the same key. */
  ghost predicate Within(a: Store, b: Store) {
    forall x :: x in a ==> x in b && a[x] == b[x]
  }

  function Empty(): (c: Contents)
    ensures WellKeyed(c)
    ensures forall k :: k in c ==> c[k] == map[]
  {
    var c: Contents := map k | k in KINDS :: map[];
    assert forall k :: k in c <==> !k.Unsupported? by {
      forall k ensures k in KINDS <==> !k.Unsupported? { KindsComplete(k); }
    }
    c
  }

  /** Lists a store key by key; map order is no particular order. */
  method ListStore(s: Store) returns (list: seq<Object>)
    requires forall x :: x in s ==> Key(s[x]) == x
    ensures Lists(list, s)
  {
    list := [];
    var rest := s.Keys;
    while rest != {}
      invariant rest <= s.Keys
      invariant forall o :: o in list <==> exists x :: x in s && x !in rest && s[x] == o
      invariant Distinct(list)
      decreases rest
    {
      var x :| x in rest;
      assert s[x] !in list;
      list := list + [s[x]];
      rest := rest - {x};
    }
  }

  /** hashCalculator.Write for each value in turn. */
  method WriteAll(text: string, values: seq<string>) returns (r: string)
    ensures r == text + Concat(values)
  {
    r := text;
    for j := 0 to |values|
      invariant r == text + Concat(values[..j])
    {
      ConcatAppend(values[..j], [values[j]]);
      assert values[..j + 1] == values[..j] + [values[j]];
      assert Concat([values[j]]) == values[j];
      r := r + values[j];
    }
    assert values[..|values|] == values;
  }

  lemma {:induction false} TextsAppend(c: Contents, a: seq<Kind>, b: seq<Kind>)
    requires forall k :: k in a + b ==> k in c
    ensures TextsFrom(c, a + b) == TextsFrom(c, a) + TextsFrom(c, b)
  {
    hide SortedTexts, ListingOf;
    assert forall k :: k in b ==> k in a + b;
    assert forall k :: k in a ==> k in a + b;
    if a == [] {
      assert a + b == b;
    } else {
      assert (a + b)[1..] == a[1..] + b;
      TextsAppend(c, a[1..], b);
    }
  }

  lemma TextsSnoc(c: Contents, kinds: seq<Kind>, i: nat, list: seq<Object>, text: string)
    requires WellKeyed(c) && (forall k :: k in kinds ==> k in c) && i < |kinds|
    requires Lists(list, c[kinds[i]]) && text == Concat(TextsFrom(c, kinds[..i]))
    ensures Concat(TextsFrom(c, kinds[..i + 1])) == text + Concat(SortedTexts(list))
  {
    TextsOne(c, kinds[i], list);
    KindsSnoc(c, kinds, i);
    hide *;
    ConcatAppend(TextsFrom(c, kinds[..i]), SortedTexts(list));
  }

  lemma TextsOne(c: Contents, k: Kind, list: seq<Object>)
    requires WellKeyed(c) && k in c && Lists(list, c[k])
    ensures TextsFrom(c, [k]) == SortedTexts(list)
  {
    hide SortedTexts;
    ListingOfLists(c[k]);
    ListingOrderIrrelevant(list, ListingOf(c[k]), c[k]);
  }

  lemma KindsSnoc(c: Contents, kinds: seq<Kind>, i: nat)
    requires i < |kinds| && forall k :: k in kinds ==> k in c
    ensures (forall k :: k in kinds[..i + 1] ==> k in c) && (forall k :: k in kinds[..i] ==> k in c) && kinds[i] in c
    ensures TextsFrom(c, kinds[..i + 1]) == TextsFrom(c, kinds[..i]) + TextsFrom(c, [kinds[i]])
  {
    hide TextsFrom;
    assert kinds[..i + 1] == kinds[..i] + [kinds[i]];
    assert forall k :: k in kinds[..i] + [kinds[i]] ==> k in kinds;
    TextsAppend(c, kinds[..i], [kinds[i]]);
  }
}
