/**
 Wildcard hostname matching. A hostname is compared label by label; a "*" label of the mask makes
 the scan skip ahead to the first label equal to the mask's next one.
 */
module Hostnames {

  // ---------------------------------------------------------------- labels

  predicate DotFree(labels: seq<string>) {
    forall l :: l in labels ==> '.' !in l
  }

  function Join(labels: seq<string>): string {
    if |labels| == 0 then "" else if |labels| == 1 then labels[0] else labels[0] + "." + Join(labels[1..])
  }

  /** strings.Split on ".": never empty, also for "". */
  function Split(s: string): (labels: seq<string>)
    ensures labels != [] && DotFree(labels) && Join(labels) == s
  {
    if s == "" then [""]
    else
      var rest := Split(s[1..]);
      if s[0] == '.' then
        assert ([""] + rest)[1..] == rest;
        [""] + rest
      else
        var first := [s[0]] + rest[0];
        assert ([first] + rest[1..])[1..] == rest[1..];
        [first] + rest[1..]
  }

  lemma {:induction false} SplitJoin(labels: seq<string>)
    requires labels != [] && DotFree(labels)
    ensures Split(Join(labels)) == labels
    decreases |labels|, |labels[0]|
  {
    assert labels[0] in labels;
    if labels[0] != "" {
      var shorter := [labels[0][1..]] + labels[1..];
      assert shorter[1..] == labels[1..];
      SplitJoin(shorter);
      assert Join(labels) == [labels[0][0]] + Join(shorter);
      assert Join(labels)[1..] == Join(shorter);
      assert [labels[0][0]] + labels[0][1..] == labels[0];
    } else if |labels| > 1 {
      SplitJoin(labels[1..]);
      assert Join(labels)[1..] == Join(labels[1..]);
    }
  }

  // ---------------------------------------------------------------- the scan

  /** What the scan decides from the remaining labels; skipping says that a "*" was just passed. */
  predicate Match(mask: seq<string>, name: seq<string>, skipping: bool) {
    if mask == [] || name == [] then |mask| == |name|
    else if skipping && mask[0] != name[0] then Match(mask, name[1..], true)
    else if mask[0] == "*" then Match(mask[1..], name[1..], true)
    else mask[0] == name[0] && Match(mask[1..], name[1..], false)
  }

  predicate Matches(hostnameA: string, hostnameB: string) {
    Match(Split(hostnameA), Split(hostnameB), false)
  }

  method HostnamesMatch(hostnameA: string, hostnameB: string) returns (r: bool)
    ensures r <==> Matches(hostnameA, hostnameB)
  {
    var labelsA, labelsB := Split(hostnameA), Split(hostnameB);
    hide Split, Match, Join, DotFree;
    var a, b, wildcard := 0, 0, false;
    assert labelsA[0..] == labelsA && labelsB[0..] == labelsB;
    while a < |labelsA| && b < |labelsB|
      invariant a <= |labelsA| && b <= |labelsB|
      invariant Match(labelsA, labelsB, false) == Match(labelsA[a..], labelsB[b..], wildcard)
      decreases |labelsA| - a
    {
      var matchFound := false;
      if wildcard {
        while b < |labelsB|
          invariant b <= |labelsB| && !matchFound
          invariant Match(labelsA, labelsB, false) == Match(labelsA[a..], labelsB[b..], true)
        {
          if labelsA[a] == labelsB[b] {
            matchFound := true;
            break;
          }
          MatchAt(labelsA, labelsB, a, b, true);
          b := b + 1;
        }
      }
      if wildcard && !matchFound {
        MatchEnd(labelsA[a..], labelsB[b..], true);
        return false;
      }
      MatchAt(labelsA, labelsB, a, b, wildcard);
      if labelsA[a] == "*" {
        wildcard := true;
        a, b := a + 1, b + 1;
        continue;
      }
      wildcard := false;
      if labelsA[a] != labelsB[b] {
        return false;
      }
      a, b := a + 1, b + 1;
    }
    MatchEnd(labelsA[a..], labelsB[b..], wildcard);
    return |labelsB| - b == |labelsA| - a;
  }

  lemma MatchEnd(mask: seq<string>, name: seq<string>, skipping: bool)
    ensures mask == [] || name == [] ==> (Match(mask, name, skipping) <==> |mask| == |name|)
  {
  }

  /** One label of the name, at positions a and b. */
  lemma MatchAt(mask: seq<string>, name: seq<string>, a: nat, b: nat, skipping: bool)
    requires a < |mask| && b < |name|
    ensures Match(mask[a..], name[b..], skipping) ==
            if skipping && mask[a] != name[b] then Match(mask[a..], name[b + 1..], true)
            else if mask[a] == "*" then Match(mask[a + 1..], name[b + 1..], true)
            else mask[a] == name[b] && Match(mask[a + 1..], name[b + 1..], false)
  {
    assert mask[a..][1..] == mask[a + 1..] && name[b..][1..] == name[b + 1..];
  }

  predicate Intersects(hostnameA: string, hostnameB: string) {
    Matches(hostnameA, hostnameB) || Matches(hostnameB, hostnameA)
  }

  method HostnamesIntersect(hostnameA: string, hostnameB: string) returns (r: bool)
    ensures r <==> Intersects(hostnameA, hostnameB)
  {
    r := HostnamesMatch(hostnameA, hostnameB);
    if !r {
      r := HostnamesMatch(hostnameB, hostnameA);
    }
  }

  // ---------------------------------------------------------------- what a mask covers

  /** A mask covers a list of labels when every "*" can stand for one or more of them. */
  predicate Covers(mask: seq<string>, labels: seq<string>) {
    if mask == [] || labels == [] then |mask| == |labels|
    else if mask[0] == "*" then Covers(mask[1..], labels[1..]) || Covers(mask, labels[1..])
    else mask[0] == labels[0] && Covers(mask[1..], labels[1..])
  }

  predicate NoWildcard(labels: seq<string>) {
    "*" !in labels
  }

  /** A concrete hostname covered by both. */
  ghost predicate CoveredByBoth(hostnameA: string, hostnameB: string, h: string) {
    NoWildcard(Split(h)) && Covers(Split(hostnameA), Split(h)) && Covers(Split(hostnameB), Split(h))
  }

  ghost predicate Overlap(hostnameA: string, hostnameB: string) {
    exists h :: CoveredByBoth(hostnameA, hostnameB, h)
  }

  /** Every match is covered, whatever the mask. While skipping, the passed "*" may take more. */
  lemma {:induction false} MatchIsCovered(mask: seq<string>, name: seq<string>, skipping: bool)
    requires Match(mask, name, skipping)
    ensures if skipping then forall l: string :: Covers(["*"] + mask, [l] + name) else Covers(mask, name)
    decreases |name|
  {
    if mask == [] || name == [] {
      CoversStep(mask, name);
    } else if skipping && mask[0] != name[0] {
      MatchIsCovered(mask, name[1..], true);
      CoversStep(mask, name);
      assert [name[0]] + name[1..] == name;
    } else {
      MatchIsCovered(mask[1..], name[1..], mask[0] == "*");
      assert [mask[0]] + mask[1..] == mask && [name[0]] + name[1..] == name;
      CoversStep(mask, name);
    }
  }

  lemma CoversStep(mask: seq<string>, name: seq<string>)
    ensures forall l: string :: Covers(["*"] + mask, [l] + name) <==> Covers(mask, name) || Covers(["*"] + mask, name)
  {
    forall l: string ensures Covers(["*"] + mask, [l] + name) <==> Covers(mask, name) || Covers(["*"] + mask, name) {
      assert (["*"] + mask)[1..] == mask && ([l] + name)[1..] == name;
    }
  }

  /** Put a concrete label in place of every "*". */
  function Concrete(labels: seq<string>): (r: seq<string>)
    ensures |r| == |labels| && NoWildcard(r) && (DotFree(labels) ==> DotFree(r))
    ensures forall i :: 0 <= i < |labels| && labels[i] != "*" ==> r[i] == labels[i]
  {
    if labels == [] then [] else
      assert forall l :: l in labels[1..] ==> l in labels;
      assert labels[0] in labels;
      [if labels[0] == "*" then "x" else labels[0]] + Concrete(labels[1..])
  }

  lemma {:induction false} CoversConcrete(mask: seq<string>, labels: seq<string>)
    requires Covers(mask, labels)
    ensures Covers(mask, Concrete(labels))
    decreases |labels|
  {
    if mask != [] && labels != [] {
      if mask[0] == "*" && Covers(mask, labels[1..]) {
        CoversConcrete(mask, labels[1..]);
      } else {
        CoversConcrete(mask[1..], labels[1..]);
      }
    }
  }

  lemma {:induction false} OwnConcrete(labels: seq<string>)
    ensures Covers(labels, Concrete(labels))
  {
    if labels != [] {
      OwnConcrete(labels[1..]);
    }
  }

  /** For all masks: a reported intersection has a concrete hostname covered by both sides. */
  lemma IntersectionIsReal(hostnameA: string, hostnameB: string)
    ensures Intersects(hostnameA, hostnameB) ==> Overlap(hostnameA, hostnameB)
  {
    if Matches(hostnameA, hostnameB) {
      MatchWitness(hostnameA, hostnameB);
    } else if Matches(hostnameB, hostnameA) {
      MatchWitness(hostnameB, hostnameA);
      var h :| CoveredByBoth(hostnameB, hostnameA, h);
      assert CoveredByBoth(hostnameA, hostnameB, h);
    }
  }

  lemma MatchWitness(hostnameA: string, hostnameB: string)
    requires Matches(hostnameA, hostnameB)
    ensures Overlap(hostnameA, hostnameB)
  {
    var labels := Split(hostnameB);
    MatchIsCovered(Split(hostnameA), labels, false);
    CoversConcrete(Split(hostnameA), labels);
    OwnConcrete(labels);
    SplitJoin(Concrete(labels));
    assert CoveredByBoth(hostnameA, hostnameB, Join(Concrete(labels)));
  }

  // ---------------------------------------------------------------- exact hostnames and leading wildcards

  predicate EndsWith(labels: seq<string>, suffix: seq<string>) {
    |suffix| <= |labels| && labels[|labels| - |suffix|..] == suffix
  }

  /** The label occurs among the first n. */
  predicate Early(first: string, labels: seq<string>, n: nat)
    requires n <= |labels|
  {
    first in labels[..n]
  }

  lemma {:induction false} ExactMatch(mask: seq<string>, name: seq<string>)
    requires NoWildcard(mask)
    ensures Match(mask, name, false) <==> mask == name
    ensures Covers(mask, name) <==> mask == name
  {
    if mask != [] && name != [] {
      assert mask == [mask[0]] + mask[1..] && name == [name[0]] + name[1..];
      ExactMatch(mask[1..], name[1..]);
    }
  }

  /** A mask without wildcard matches itself only. */
  lemma ExactHostname(mask: string, name: string)
    requires NoWildcard(Split(mask))
    ensures Matches(mask, name) <==> mask == name
  {
    ExactMatch(Split(mask), Split(name));
    assert Join(Split(mask)) == mask && Join(Split(name)) == name;
  }

  /** Skipping ahead: the first occurrence of the suffix's first label decides. */
  lemma {:induction false} SkipMatch(suffix: seq<string>, name: seq<string>)
    requires suffix != [] && NoWildcard(suffix)
    ensures Match(suffix, name, true) <==> EndsWith(name, suffix) && !Early(suffix[0], name, |name| - |suffix|)
  {
    if name != [] {
      assert name == [name[0]] + name[1..];
      if suffix[0] != name[0] {
        SkipMatch(suffix, name[1..]);
        if |suffix| < |name| {
          assert name[..|name| - |suffix|] == [name[0]] + name[1..][..|name| - 1 - |suffix|];
        }
      } else {
        assert suffix == [suffix[0]] + suffix[1..];
        ExactMatch(suffix[1..], name[1..]);
        if |suffix| < |name| {
          assert name[0] in name[..|name| - |suffix|];
        }
      }
    }
  }

  lemma {:induction false} SuffixCovered(suffix: seq<string>, name: seq<string>)
    requires NoWildcard(suffix)
    ensures Covers(["*"] + suffix, name) <==> |suffix| < |name| && EndsWith(name, suffix)
    decreases |name|
  {
    if name != [] {
      assert name == [name[0]] + name[1..];
      CoversStep(suffix, name[1..]);
      ExactMatch(suffix, name[1..]);
      SuffixCovered(suffix, name[1..]);
    }
  }

  /** A mask that is a lone "*" matches single labels only; one with a suffix matches exactly when
      the suffix ends the name and its first label occurs nowhere between label 0 and that ending. */
  lemma LeadingWildcardMatch(mask: string, name: string, suffix: seq<string>)
    requires Split(mask) == ["*"] + suffix && NoWildcard(suffix)
    ensures var labels := Split(name);
            Matches(mask, name) <==>
              if suffix == [] then |labels| == 1
              else EndsWith(labels[1..], suffix) && !Early(suffix[0], labels[1..], |labels| - 1 - |suffix|)
  {
    hide Split;
    WildcardStep(suffix, Split(name));
    if suffix != [] {
      SkipMatch(suffix, Split(name)[1..]);
    }
  }

  lemma WildcardStep(suffix: seq<string>, labels: seq<string>)
    requires labels != []
    ensures Match(["*"] + suffix, labels, false) == Match(suffix, labels[1..], true)
    ensures suffix == [] ==> (Match(suffix, labels[1..], true) <==> |labels| == 1)
  {
    assert (["*"] + suffix)[1..] == suffix;
  }

  /** The mask covers the hostname, yet is not found to match: the suffix's first label repeats. */
  lemma RepeatedLabelMissed()
    ensures var mask, name := "*.example.com", "a.example.example.com";
            Covers(Split(mask), Split(name)) && Overlap(mask, name) && !Intersects(mask, name)
  {
    var mask, name := "*.example.com", "a.example.example.com";
    var suffix, labels := ["example", "com"], ["a", "example", "example", "com"];
    SplitExample();
    RepeatedLabel(suffix, labels);
    hide Split, Match, Covers;
    assert CoveredByBoth(mask, name, name);
  }

  lemma SplitExample()
    ensures Split("*.example.com") == ["*"] + ["example", "com"]
    ensures Split("a.example.example.com") == ["a", "example", "example", "com"]
  {
    hide *;
    SplitDomain();
    assert "*" + "." + "example.com" == "*.example.com";
    SplitFirst("*", "example.com");
    assert "a" + "." + "example.example.com" == "a.example.example.com";
    SplitFirst("a", "example.example.com");
    assert ["a"] + ["example", "example", "com"] == ["a", "example", "example", "com"];
  }

  lemma SplitDomain()
    ensures Split("example.com") == ["example", "com"]
    ensures Split("example.example.com") == ["example", "example", "com"]
  {
    hide Split;
    SplitJoin(["com"]);
    assert "example" + "." + "com" == "example.com";
    SplitFirst("example", "com");
    hide *;
    assert "example" + "." + "example.com" == "example.example.com";
    SplitFirst("example", "example.com");
    assert ["example"] + ["example", "com"] == ["example", "example", "com"];
  }

  lemma SplitFirst(first: string, rest: string)
    requires '.' !in first
    ensures Split(first + "." + rest) == [first] + Split(rest)
  {
    var labels := [first] + Split(rest);
    assert labels[1..] == Split(rest);
    hide Split;
    SplitJoin(labels);
  }

  lemma RepeatedLabel(suffix: seq<string>, labels: seq<string>)
    requires suffix == ["example", "com"] && labels == ["a", "example", "example", "com"]
    ensures NoWildcard(labels) && Covers(["*"] + suffix, labels) && Covers(labels, labels)
    ensures !Match(["*"] + suffix, labels, false) && !Match(labels, ["*"] + suffix, false)
  {
    hide Match, Covers;
    SuffixCovered(suffix, labels);
    ExactMatch(labels, labels);
    ExactMatch(labels, ["*"] + suffix);
    WildcardStep(suffix, labels);
    SkipMatch(suffix, labels[1..]);
    assert labels[1..][..1][0] == "example";
  }

  // ---------------------------------------------------------------- when the answer is right

  /** The hostnames the Gateway API admits: no "*", or a single one as the first of several labels. */
  predicate Admitted(labels: seq<string>) {
    labels != [] && NoWildcard(labels[1..]) && (labels[0] == "*" ==> |labels| > 1)
  }

  /** The label after the mask's "*" occurs in the name too early, after label 0. */
  predicate Repeats(mask: seq<string>, name: seq<string>) {
    |mask| > 1 && mask[0] == "*" && |mask| <= |name| && Early(mask[1], name[1..], |name| - |mask|)
  }

  /** For admitted hostnames the answer is right exactly when no such repetition stands in the way. */
  lemma IntersectsExactly(hostnameA: string, hostnameB: string)
    requires Admitted(Split(hostnameA)) && Admitted(Split(hostnameB))
    ensures Intersects(hostnameA, hostnameB) <==>
              Overlap(hostnameA, hostnameB) && !Repeats(Split(hostnameA), Split(hostnameB))
                && !Repeats(Split(hostnameB), Split(hostnameA))
  {
    var a, b := Split(hostnameA), Split(hostnameB);
    IntersectionIsReal(hostnameA, hostnameB);
    AdmittedMatch(a, b);
    AdmittedMatch(b, a);
    if Overlap(hostnameA, hostnameB) {
      var h :| CoveredByBoth(hostnameA, hostnameB, h);
      AdmittedCovers(a, Split(h));
      AdmittedCovers(b, Split(h));
      OneEndsTheOther(a, b, Split(h));
    }
  }

  /** b ends with a's part behind its "*", or equals a. */
  ghost predicate Within(a: seq<string>, b: seq<string>) {
    Admitted(a) && if a[0] == "*" then |a| <= |b| && EndsWith(b[1..], a[1..]) else a == b
  }

  lemma AdmittedMatch(a: seq<string>, b: seq<string>)
    requires Admitted(a) && b != []
    ensures Match(a, b, false) <==> Within(a, b) && !Repeats(a, b)
  {
    if a[0] == "*" {
      SkipMatch(a[1..], b[1..]);
    } else {
      assert a == [a[0]] + a[1..];
      ExactMatch(a, b);
    }
  }

  lemma AdmittedCovers(a: seq<string>, h: seq<string>)
    requires Admitted(a) && h != []
    ensures Covers(a, h) <==> Within(a, h)
  {
    assert a == [a[0]] + a[1..];
    if a[0] == "*" {
      SuffixCovered(a[1..], h);
    } else {
      ExactMatch(a, h);
    }
  }

  lemma OneEndsTheOther(a: seq<string>, b: seq<string>, h: seq<string>)
    requires Admitted(a) && Admitted(b) && h != [] && Within(a, h) && Within(b, h) && NoWildcard(h)
    ensures Within(a, b) || Within(b, a)
  {
    if a[0] == "*" && b[0] == "*" {
      if |a| <= |b| {
        TailsNest(a[1..], b[1..], h[1..]);
      } else {
        TailsNest(b[1..], a[1..], h[1..]);
      }
    }
  }

  lemma TailsNest(s: seq<string>, t: seq<string>, h: seq<string>)
    requires EndsWith(h, s) && EndsWith(h, t) && |s| <= |t|
    ensures EndsWith(t, s)
  {
    assert t[|t| - |s|..] == h[|h| - |t|..][|t| - |s|..] == h[|h| - |s|..];
  }
}
