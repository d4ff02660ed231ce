/**
 The sweep that removes route statuses of parents that are no longer referenced. It deletes from
 the status slice while ranging over the same backing array, so after each deletion the element
 that moved into the hole is not examined in that pass. The early return of the reconciler makes
 the sweep run again, until nothing is removed.
 */
module StaleStatusSweep {
  import opened Common
  import Text

  datatype ParentReference = ParentReference(
    group: Option<string>, kind: Option<string>, namespace: Option<string>,
    name: string, sectionName: Option<string>, port: Option<int>)

  datatype ParentStatus = ParentStatus(controllerName: string, parentRef: ParentReference, conditions: seq<string>)

  /** What the tail of the backing array holds after slices.Delete has cleared it. */
  const ZERO := ParentStatus("", ParentReference(None, None, None, "", None, None), [])

  // ---------------------------------------------------------------- parent reference keys

  function PortText(port: Option<int>): string {
    if port.None? then "" else Text.Itoa(port.value)
  }

  /** parentReferenceKey */
  function Key(routeNamespace: string, r: ParentReference): string {
    r.namespace.GetOr(routeNamespace) + ['/'] + (r.name + ['/'] + (r.sectionName.GetOr("") + ['/'] + PortText(r.port)))
  }

  /** The parent a reference means: group and kind play no part, absent fields take their defaults. */
  datatype Target = Target(namespace: string, name: string, sectionName: string, port: Option<int>)

  function TargetOf(routeNamespace: string, r: ParentReference): Target {
    Target(r.namespace.GetOr(routeNamespace), r.name, r.sectionName.GetOr(""), r.port)
  }

  predicate SlashFree(t: Target) {
    '/' !in t.namespace && '/' !in t.name && '/' !in t.sectionName
  }

  /** Two references get the same key exactly when they mean the same parent. */
  lemma KeyIdentifiesTarget(routeNamespace: string, r: ParentReference, q: ParentReference)
    requires SlashFree(TargetOf(routeNamespace, r)) && SlashFree(TargetOf(routeNamespace, q))
    ensures Key(routeNamespace, r) == Key(routeNamespace, q) <==>
              TargetOf(routeNamespace, r) == TargetOf(routeNamespace, q)
  {
    if Key(routeNamespace, r) == Key(routeNamespace, q) {
      var r3 := r.sectionName.GetOr("") + ['/'] + PortText(r.port);
      var q3 := q.sectionName.GetOr("") + ['/'] + PortText(q.port);
      var r2, q2 := r.name + ['/'] + r3, q.name + ['/'] + q3;
      Text.SplitUnique(r.namespace.GetOr(routeNamespace), r2, '/', q.namespace.GetOr(routeNamespace), q2);
      Text.SplitUnique(r.name, r3, '/', q.name, q3);
      Text.SplitUnique(r.sectionName.GetOr(""), PortText(r.port), '/', q.sectionName.GetOr(""), PortText(q.port));
      if r.port.Some? { Text.ItoaNoSlash(r.port.value); }
      if q.port.Some? { Text.ItoaNoSlash(q.port.value); }
      if r.port.Some? && q.port.Some? { Text.ItoaInjective(r.port.value, q.port.value); }
    }
  }

  function Keys(routeNamespace: string, refs: seq<ParentReference>): set<string> {
    set r | r in refs :: Key(routeNamespace, r)
  }

  /** Our own status entry whose parent is no longer among the route's parentRefs. */
  predicate IsStale(controller: string, routeNamespace: string, refs: seq<ParentReference>, p: ParentStatus) {
    p.controllerName == controller && Key(routeNamespace, p.parentRef) !in Keys(routeNamespace, refs)
  }

  function StalePredicate(controller: string, routeNamespace: string,
                          refs: seq<ParentReference>): ParentStatus -> bool {
    p => IsStale(controller, routeNamespace, refs, p)
  }

  /** In terms of parents rather than key strings. */
  lemma StaleMeaning(controller: string, routeNamespace: string, refs: seq<ParentReference>, p: ParentStatus)
    requires SlashFree(TargetOf(routeNamespace, p.parentRef))
    requires forall r :: r in refs ==> SlashFree(TargetOf(routeNamespace, r))
    ensures IsStale(controller, routeNamespace, refs, p) <==>
              p.controllerName == controller
              && forall r :: r in refs ==> TargetOf(routeNamespace, r) != TargetOf(routeNamespace, p.parentRef)
  {
    forall r | r in refs
      ensures Key(routeNamespace, r) == Key(routeNamespace, p.parentRef) <==>
                TargetOf(routeNamespace, r) == TargetOf(routeNamespace, p.parentRef)
    {
      KeyIdentifiesTarget(routeNamespace, r, p.parentRef);
    }
  }

  // ---------------------------------------------------------------- one pass, on sequences

  /** One pass: a stale entry goes, and the entry after it is kept without being looked at. */
  function Swept<T>(s: seq<T>, stale: T -> bool): seq<T> {
    if s == [] then []
    else if !stale(s[0]) then [s[0]] + Swept(s[1..], stale)
    else if |s| == 1 then []
    else [s[1]] + Swept(s[2..], stale)
  }

  function StaleCount<T>(s: seq<T>, stale: T -> bool): nat {
    if s == [] then 0 else (if stale(s[0]) then 1 else 0) + StaleCount(s[1..], stale)
  }

  /** The entries that must survive: live ones and those of other controllers. */
  function Kept<T>(s: seq<T>, stale: T -> bool): seq<T> {
    if s == [] then [] else (if stale(s[0]) then [] else [s[0]]) + Kept(s[1..], stale)
  }

  /** Every entry that is not stale survives a pass, in the original order. */
  lemma {:induction false} SweepKeepsLive<T>(s: seq<T>, stale: T -> bool)
    ensures Kept(Swept(s, stale), stale) == Kept(s, stale)
  {
    if s != [] {
      if !stale(s[0]) {
        SweepKeepsLive(s[1..], stale);
        assert Swept(s, stale)[1..] == Swept(s[1..], stale);
      } else if |s| > 1 {
        SweepKeepsLive(s[2..], stale);
        assert Swept(s, stale)[1..] == Swept(s[2..], stale);
        assert s[1..][1..] == s[2..];
      }
    }
  }

  /** A pass removes only stale entries and leaves at most half of them, rounded down. */
  lemma {:induction false} SweepHalves<T>(s: seq<T>, stale: T -> bool)
    ensures StaleCount(Swept(s, stale), stale) <= StaleCount(s, stale) / 2
    ensures |s| - |Swept(s, stale)| == StaleCount(s, stale) - StaleCount(Swept(s, stale), stale)
  {
    if s != [] {
      if !stale(s[0]) {
        SweepHalves(s[1..], stale);
        assert Swept(s, stale)[1..] == Swept(s[1..], stale);
      } else if |s| > 1 {
        SweepHalves(s[2..], stale);
        assert Swept(s, stale)[1..] == Swept(s[2..], stale);
        assert s[1..][1..] == s[2..];
      }
    }
  }

  /** A pass changes the list exactly when some entry is stale. */
  lemma {:induction false} SweepChangesIffStale<T>(s: seq<T>, stale: T -> bool)
    ensures Swept(s, stale) != s <==> exists i :: 0 <= i < |s| && stale(s[i])
    ensures StaleCount(s, stale) == 0 <==> forall i :: 0 <= i < |s| ==> !stale(s[i])
    ensures StaleCount(s, stale) == 0 ==> Kept(s, stale) == s
  {
    SweepHalves(s, stale);
    if s != [] {
      SweepChangesIffStale(s[1..], stale);
      assert forall i :: 0 < i < |s| ==> s[i] == s[1..][i - 1];
      assert s == [s[0]] + s[1..];
    }
  }

  // ---------------------------------------------------------------- repeated passes

  /** The number of reconciles that return early because they removed something. */
  function Passes<T>(s: seq<T>, stale: T -> bool): nat
    decreases StaleCount(s, stale)
  {
    if StaleCount(s, stale) == 0 then 0 else
      SweepHalves(s, stale);
      1 + Passes(Swept(s, stale), stale)
  }

  function AfterPasses<T>(s: seq<T>, stale: T -> bool, n: nat): seq<T>
    decreases n
  {
    if n == 0 then s else AfterPasses(Swept(s, stale), stale, n - 1)
  }

  function Pow2(n: nat): nat {
    if n == 0 then 1 else 2 * Pow2(n - 1)
  }

  /** Repeated reconciles reach the list without stale entries, with nothing else lost or moved. */
  lemma {:induction false} SweepConverges<T>(s: seq<T>, stale: T -> bool)
    ensures AfterPasses(s, stale, Passes(s, stale)) == Kept(s, stale)
    decreases StaleCount(s, stale)
  {
    SweepChangesIffStale(s, stale);
    if StaleCount(s, stale) > 0 {
      SweepHalves(s, stale);
      SweepConverges(Swept(s, stale), stale);
      SweepKeepsLive(s, stale);
    }
  }

  /** Fewer than 2^n stale entries are gone after at most n passes. */
  lemma {:induction false} PassesLogarithmic<T>(s: seq<T>, stale: T -> bool, n: nat)
    requires StaleCount(s, stale) < Pow2(n)
    ensures Passes(s, stale) <= n
    decreases n
  {
    if StaleCount(s, stale) > 0 {
      SweepHalves(s, stale);
      PassesLogarithmic(Swept(s, stale), stale, n - 1);
    }
  }

  /** The bound is attained: 2^n stale entries in a row take more than n passes. */
  lemma {:induction false} PassesTight<T>(s: seq<T>, stale: T -> bool, n: nat)
    requires forall x :: x in s ==> stale(x)
    requires |s| >= Pow2(n)
    ensures Passes(s, stale) > n
    decreases n
  {
    AllStale(s, stale);
    if n > 0 {
      PassesTight(Swept(s, stale), stale, n - 1);
    }
  }

  lemma {:induction false} AllStale<T>(s: seq<T>, stale: T -> bool)
    requires forall x :: x in s ==> stale(x)
    ensures StaleCount(s, stale) == |s|
    ensures |Swept(s, stale)| == |s| / 2
    ensures forall x :: x in Swept(s, stale) ==> stale(x)
  {
    if s != [] {
      AllStale(s[1..], stale);
      if |s| > 1 {
        AllStale(s[2..], stale);
      }
    }
  }

  // ---------------------------------------------------------------- the in-place code

  /** An HTTPRoute's namespace, parentRefs, and status slice (a backing array and a length). */
  class HTTPRoute {
    const namespace: string
    const parentRefs: seq<ParentReference>
    const backing: array<ParentStatus>
    var length: nat

    ghost predicate Valid()
      reads this
    {
      length <= backing.Length
    }

    ghost function Parents(): seq<ParentStatus>
      requires Valid()
      reads this, backing
    {
      backing[..length]
    }

    constructor (namespace: string, parentRefs: seq<ParentReference>, backing: array<ParentStatus>, length: nat)
      requires length <= backing.Length
      ensures Valid()
      ensures this.namespace == namespace && this.parentRefs == parentRefs && this.backing == backing
      ensures this.length == length
    {
      this.namespace, this.parentRefs, this.backing, this.length := namespace, parentRefs, backing, length;
    }

    /** slices.Delete(s, i, i+1): shift the tail left in the backing array and clear the freed slot. */
    method DeleteAt(i: nat)
      requires Valid() && i < length
      modifies this`length, backing
      ensures Valid() && length == old(length) - 1
      ensures Parents() == old(Parents()[..i] + Parents()[i + 1..])
      ensures backing[length] == ZERO
      ensures forall j :: old(length) <= j < backing.Length ==> backing[j] == old(backing[j])
    {
      var k := i;
      while k + 1 < length
        invariant i <= k < length == old(length)
        invariant forall j :: 0 <= j < i ==> backing[j] == old(backing[j])
        invariant forall j :: i <= j < k ==> backing[j] == old(backing[j + 1])
        invariant forall j :: k < j < backing.Length ==> backing[j] == old(backing[j])
      {
        backing[k] := backing[k + 1];
        k := k + 1;
      }
      backing[k] := ZERO;
      length := length - 1;
    }

    /** The lookup set the sweep builds first. */
    method CurrentlyDefinedKeys() returns (keys: set<string>)
      ensures keys == Keys(namespace, parentRefs)
    {
      keys := {};
      for i := 0 to |parentRefs|
        invariant keys == Keys(namespace, parentRefs[..i])
      {
        keys := keys + {Key(namespace, parentRefs[i])};
        assert parentRefs[..i + 1] == parentRefs[..i] + [parentRefs[i]];
      }
      assert parentRefs[..|parentRefs|] == parentRefs;
    }

    /** One iteration of the ranging loop, at an index that may lie beyond the shrunken slice. */
    method SweepAt(parentIdx: nat, n: nat, controller: string, currentlyDefined: set<string>,
                   ghost before: seq<ParentStatus>)
      returns (removed: bool)
      requires Valid() && length <= n <= backing.Length && parentIdx < n && controller != ""
      requires currentlyDefined == Keys(namespace, parentRefs)
      requires forall k :: length <= k < n ==> backing[k] == ZERO
      requires Progress(before, Parents(), parentIdx, StalePredicate(controller, namespace, parentRefs))
      modifies this`length, backing
      ensures Valid() && length == old(length) - (if removed then 1 else 0)
      ensures forall k :: length <= k < n ==> backing[k] == ZERO
      ensures forall j :: n <= j < backing.Length ==> backing[j] == old(backing[j])
      ensures Progress(before, Parents(), parentIdx + 1, StalePredicate(controller, namespace, parentRefs))
    {
      ghost var stale := StalePredicate(controller, namespace, parentRefs);
      ghost var cur := Parents();
      var parentStatus := backing[parentIdx];
      removed := parentStatus.controllerName == controller
        && Key(namespace, parentStatus.parentRef) !in currentlyDefined;
      if removed {
        ProgressDelete(before, cur, parentIdx, stale);
        DeleteAt(parentIdx);
      } else {
        ProgressSkip(before, cur, parentIdx, stale);
      }
    }

    /** ensureNoStaleParentStatus */
    method EnsureNoStaleParentStatus(controller: string) returns (wasAnyStatusRemoved: bool)
      requires Valid() && controller != ""
      modifies this`length, backing
      ensures Valid() && length <= old(length)
      ensures Parents() == Swept(old(Parents()), StalePredicate(controller, namespace, parentRefs))
      ensures wasAnyStatusRemoved <==> exists p :: p in old(Parents()) && IsStale(controller, namespace, parentRefs, p)
      ensures forall j :: old(length) <= j < backing.Length ==> backing[j] == old(backing[j])
    {
      var currentlyDefined := CurrentlyDefinedKeys();
      ghost var stale := StalePredicate(controller, namespace, parentRefs);
      ghost var before := Parents();
      var n := length;
      wasAnyStatusRemoved := false;
      // The range expression is evaluated once: n iterations over the original backing array.
      for parentIdx := 0 to n
        invariant Valid() && length <= n
        invariant forall k :: length <= k < n ==> backing[k] == ZERO
        invariant forall j :: n <= j < backing.Length ==> backing[j] == old(backing[j])
        invariant Progress(before, Parents(), parentIdx, stale)
        invariant wasAnyStatusRemoved == (length < n)
      {
        var removed := SweepAt(parentIdx, n, controller, currentlyDefined, before);
        wasAnyStatusRemoved := wasAnyStatusRemoved || removed;
      }
      ProgressDone(before, Parents(), stale);
    }
  }

  /** What holds when the loop reaches index idx with the slice shrunk from before to cur. */
  ghost predicate Progress<T>(before: seq<T>, cur: seq<T>, idx: nat, stale: T -> bool) {
    && |cur| <= |before|
    && (var m := Min(idx, |cur|); Swept(before, stale) == cur[..m] + Swept(cur[m..], stale))
    && (|cur| == |before| ==> cur == before && forall k :: 0 <= k < idx && k < |before| ==> !stale(before[k]))
    && (|cur| < |before| ==> exists k :: 0 <= k < |before| && stale(before[k]))
  }

  lemma ProgressDelete<T>(before: seq<T>, cur: seq<T>, idx: nat, stale: T -> bool)
    requires Progress(before, cur, idx, stale) && idx < |cur| && stale(cur[idx])
    ensures Progress(before, cur[..idx] + cur[idx + 1..], idx + 1, stale)
  {
    SweptStep(cur, idx, stale);
    if |cur| == |before| {
      assert stale(before[idx]);
    }
  }

  lemma ProgressSkip<T>(before: seq<T>, cur: seq<T>, idx: nat, stale: T -> bool)
    requires Progress(before, cur, idx, stale)
    requires idx < |cur| ==> !stale(cur[idx])
    ensures Progress(before, cur, idx + 1, stale)
  {
    if idx < |cur| {
      SweptStep(cur, idx, stale);
    }
  }

  lemma ProgressDone<T>(before: seq<T>, cur: seq<T>, stale: T -> bool)
    requires Progress(before, cur, |before|, stale)
    ensures cur == Swept(before, stale)
    ensures |cur| < |before| <==> exists p :: p in before && stale(p)
  {
    assert cur[..|cur|] == cur && cur[|cur|..] == [];
  }

  function Min(a: nat, b: nat): nat {
    if a < b then a else b
  }

  lemma SweptStep<T>(cur: seq<T>, i: nat, stale: T -> bool)
    requires i < |cur|
    ensures !stale(cur[i]) ==> cur[..i] + Swept(cur[i..], stale) == cur[..i + 1] + Swept(cur[i + 1..], stale)
    ensures stale(cur[i]) ==>
              var next := cur[..i] + cur[i + 1..];
              var m := Min(i + 1, |next|);
              cur[..i] + Swept(cur[i..], stale) == next[..m] + Swept(next[m..], stale)
  {
    if !stale(cur[i]) {
      assert cur[i..][1..] == cur[i + 1..];
    } else if i + 1 < |cur| {
      var next := cur[..i] + cur[i + 1..];
      assert cur[i..][2..] == cur[i + 2..] == next[i + 1..];
      assert next[..i + 1] == cur[..i] + [cur[i + 1]];
    } else {
      var next := cur[..i] + cur[i + 1..];
      assert next == cur[..i] && next[..i] == next && next[i..] == [];
    }
  }
}
