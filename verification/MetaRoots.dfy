/** Source roots of meta2deps.py: what `__init__` makes of SRCTOPS, and why the first root that fits a path
    is the longest one. */
module MetaRoots {
  import opened PyStrings
  import opened MetaSpec

  /** Python's order on strings: code point by code point, a proper prefix first. */
  predicate Before(a: string, b: string) {
    if b == "" then false
    else if a == "" then true
    else a[0] < b[0] || (a[0] == b[0] && Before(a[1..], b[1..]))
  }

  /** At the first place where two strings differ, or where one of them ends. */
  lemma {:induction false} BeforeExactly(a: string, b: string)
    ensures Before(a, b) <==> exists k: nat :: DiffersAt(a, b, k)
    decreases |a|
  {
    if a != "" && b != "" && a[0] == b[0] {
      BeforeExactly(a[1..], b[1..]);
      if k: nat :| DiffersAt(a[1..], b[1..], k) {
        assert a[..k + 1] == [a[0]] + a[1..][..k] && b[..k + 1] == [b[0]] + b[1..][..k];
        assert DiffersAt(a, b, k + 1);
      }
      if k: nat :| DiffersAt(a, b, k) {
        assert a[1..][..k - 1] == a[..k][1..] && b[1..][..k - 1] == b[..k][1..];
        assert DiffersAt(a[1..], b[1..], k - 1);
      }
    } else if Before(a, b) {
      assert DiffersAt(a, b, 0);
    }
  }

  predicate DiffersAt(a: string, b: string, k: nat) {
    k <= |a| && k < |b| && a[..k] == b[..k] && (k == |a| || a[k] < b[k])
  }

  predicate Descending(tops: seq<string>) {
    forall i, j :: 0 <= i < j < |tops| ==> !Before(tops[i], tops[j])
  }

  lemma {:induction false} PrefixIsBefore(a: string, b: string)
    requires a <= b && a != b
    ensures Before(a, b)
  {
    if a != "" { PrefixIsBefore(a[1..], b[1..]); }
  }

  lemma {:induction false} NotBeforeBoth(a: string, b: string, c: string)
    requires !Before(a, b) && !Before(b, c)
    ensures !Before(a, c)
  {
    if a != "" && b != "" && c != "" && a[0] == b[0] == c[0] {
      NotBeforeBoth(a[1..], b[1..], c[1..]);
    }
  }

  lemma {:induction false} BeforeOneWay(a: string, b: string)
    ensures !(Before(a, b) && Before(b, a))
  {
    if a != "" && b != "" { BeforeOneWay(a[1..], b[1..]); }
  }

  /** find_top on a descending list: the longest root that starts the path, and None only if none does. */
  lemma {:induction false} FindTopIsLongest(path: string, tops: seq<string>)
    requires Descending(tops)
    ensures var top := FindTop(path, tops);
      && (top.None? <==> forall k :: 0 <= k < |tops| ==> !(tops[k] <= path))
      && (top.Some? ==>
            && top.value in tops && top.value <= path
            && forall k :: 0 <= k < |tops| && tops[k] <= path ==> |tops[k]| <= |top.value|)
    decreases |tops|
  {
    if tops != [] {
      assert forall k :: 0 <= k < |tops| - 1 ==> tops[1..][k] == tops[k + 1];
      if tops[0] <= path {
        forall k | 0 <= k < |tops| && tops[k] <= path ensures |tops[k]| <= |tops[0]| {
          if |tops[k]| > |tops[0]| {
            assert tops[0] == path[..|tops[0]|] && tops[k] == path[..|tops[k]|];
            assert tops[0] <= tops[k];
            PrefixIsBefore(tops[0], tops[k]);
          }
        }
      } else {
        FindTopIsLongest(path, tops[1..]);
        assert forall k :: 1 <= k < |tops| ==> tops[k] == tops[1..][k - 1];
      }
    }
  }

  // ---- sort(reverse=True) -----------------------------------------------------------------------

  function InsertDown(x: string, tops: seq<string>): seq<string> {
    if tops == [] || !Before(x, tops[0]) then [x] + tops else [tops[0]] + InsertDown(x, tops[1..])
  }

  function SortDown(tops: seq<string>): seq<string> {
    if tops == [] then [] else InsertDown(tops[0], SortDown(tops[1..]))
  }

  lemma {:induction false} InsertDownSame(x: string, tops: seq<string>)
    ensures multiset(InsertDown(x, tops)) == multiset(tops) + multiset{x}
    decreases |tops|
  {
    if tops != [] && Before(x, tops[0]) {
      assert tops == [tops[0]] + tops[1..];
      InsertDownSame(x, tops[1..]);
    }
  }

  lemma InsertDownFrom(x: string, tops: seq<string>, y: string)
    requires y in InsertDown(x, tops)
    ensures y == x || y in tops
  {
    InsertDownSame(x, tops);
    assert y in multiset(InsertDown(x, tops));
  }

  lemma {:induction false} InsertDownKeeps(x: string, tops: seq<string>)
    requires Descending(tops)
    ensures Descending(InsertDown(x, tops))
    decreases |tops|
  {
    if tops == [] || !Before(x, tops[0]) {
      forall j | 0 <= j < |tops| ensures !Before(x, tops[j]) {
        if j > 0 { NotBeforeBoth(x, tops[0], tops[j]); }
      }
    } else {
      var rest := tops[1..];
      InsertDownKeeps(x, rest);
      BeforeOneWay(x, tops[0]);
      var r := InsertDown(x, rest);
      forall j | 0 <= j < |r| ensures !Before(tops[0], r[j]) {
        InsertDownFrom(x, rest, r[j]);
        if r[j] != x {
          var i :| 0 <= i < |rest| && rest[i] == r[j];
          assert tops[i + 1] == r[j];
        }
      }
    }
  }

  lemma {:induction false} SortDownSorts(tops: seq<string>)
    ensures Descending(SortDown(tops)) && multiset(SortDown(tops)) == multiset(tops)
    decreases |tops|
  {
    if tops != [] {
      SortDownSorts(tops[1..]);
      InsertDownKeeps(tops[0], SortDown(tops[1..]));
      InsertDownSame(tops[0], SortDown(tops[1..]));
      assert tops == [tops[0]] + tops[1..];
    }
  }

  // ---- __init__ ---------------------------------------------------------------------------------

  function Slashed(s: string): string {
    if s != "" && s[|s| - 1] != '/' then s + "/" else s
  }

  /** A configured root and the real path behind it. */
  function RootPair(top: string, realPath: string -> string): set<string> {
    {Slashed(top), Slashed(realPath(Slashed(top)))}
  }

  function RootSet(conf: seq<string>, realPath: string -> string): set<string> {
    set k, top | 0 <= k < |conf| && top in RootPair(conf[k], realPath) :: top
  }

  predicate Distinct(list: seq<string>) { forall j, k :: 0 <= j < k < |list| ==> list[j] != list[k] }

  lemma AddElement(list: seq<string>, x: string)
    requires Distinct(list)
    ensures Distinct(Add(list, x)) && (set y | y in Add(list, x)) == (set y | y in list) + {x}
  {}

  lemma RootSetSnoc(conf: seq<string>, i: nat, realPath: string -> string)
    requires i < |conf|
    ensures RootSet(conf[..i + 1], realPath) == RootSet(conf[..i], realPath) + RootPair(conf[i], realPath)
  {
    var a, b := conf[..i + 1], conf[..i];
    forall top | top in RootSet(b, realPath) + RootPair(conf[i], realPath) ensures top in RootSet(a, realPath) {
      if top in RootPair(conf[i], realPath) {
        assert a[i] == conf[i];
      } else {
        var k :| 0 <= k < |b| && top in RootPair(b[k], realPath);
        assert a[k] == b[k];
      }
    }
  }

  /** The SRCTOPS loop of __init__: every root and the real path behind it, each ending in a slash, once,
      in descending order. The source indexes the last character, so no root may be empty. */
  method SourceRoots(conf: seq<string>, realPath: string -> string) returns (tops: seq<string>)
    requires forall k :: 0 <= k < |conf| ==> conf[k] != "" && realPath(Slashed(conf[k])) != ""
    ensures Descending(tops) && multiset(tops) == multiset(RootSet(conf, realPath))
    ensures forall k :: 0 <= k < |tops| ==> EndsWith(tops[k], "/")
  {
    var list: seq<string> := [];
    var i := 0;
    while i < |conf|
      invariant 0 <= i <= |conf|
      invariant Distinct(list) && (set top | top in list) == RootSet(conf[..i], realPath)
    {
      var srctop := Slashed(conf[i]);
      AddElement(list, srctop);
      list := Add(list, srctop);
      AddElement(list, Slashed(realPath(srctop)));
      list := Add(list, Slashed(realPath(srctop)));
      RootSetSnoc(conf, i, realPath);
      i := i + 1;
    }
    assert conf[..|conf|] == conf;
    tops := SortDown(list);
    SortDownSorts(list);
    DistinctOnce(list);
    forall k | 0 <= k < |tops| ensures EndsWith(tops[k], "/") {
      assert tops[k] in multiset(tops);
      RootSlashed(conf, realPath, tops[k]);
    }
  }

  lemma RootSlashed(conf: seq<string>, realPath: string -> string, top: string)
    requires forall k :: 0 <= k < |conf| ==> conf[k] != "" && realPath(Slashed(conf[k])) != ""
    requires top in RootSet(conf, realPath)
    ensures EndsWith(top, "/")
  {
    assert top != "" && top[|top| - 1] == '/';
  }

  lemma {:induction false} DistinctOnce(list: seq<string>)
    requires Distinct(list)
    ensures multiset(list) == multiset(set x | x in list)
    decreases |list|
  {
    if list != [] {
      var n := |list| - 1;
      assert list == list[..n] + [list[n]];
      DistinctOnce(list[..n]);
      assert list[n] !in list[..n];
      assert (set x | x in list) == (set x | x in list[..n]) + {list[n]};
    }
  }
}
