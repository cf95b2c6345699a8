/** The Python string and os.path operations meta2deps.py is written with.
    `s.startswith(t)` is Dafny's prefix test `t <= s`. */
module PyStrings {

  /** Append unless already there. */
  function Add(list: seq<string>, x: string): seq<string> { if x in list then list else list + [x] }

  /** The list so far stays in front, and x is in it once more only if it was not in it. */
  lemma AddExactly(list: seq<string>, x: string)
    ensures list <= Add(list, x) && x in Add(list, x)
    ensures |Add(list, x)| == |list| + if x in list then 0 else 1
  {}

  predicate EndsWith(s: string, t: string) {
    |t| <= |s| && s[|s| - |t|..] == t
  }

  lemma EndsWithExactly(s: string, t: string)
    ensures EndsWith(s, t) <==> exists r :: s == r + t
  {
    if EndsWith(s, t) { assert s == s[..|s| - |t|] + t; }
  }

  /** `s.find(t)`: the first index at which t occurs, or -1. */
  function Find(s: string, t: string): (k: int)
    ensures -1 <= k <= |s|
  {
    if t <= s then 0
    else if s == "" then -1
    else
      var k := Find(s[1..], t);
      if k < 0 then -1 else k + 1
  }

  predicate OccursAt(s: string, t: string, k: int) { 0 <= k <= |s| && t <= s[k..] }

  lemma {:induction false} FindFirst(s: string, t: string)
    ensures var k := Find(s, t);
      && (0 <= k ==> OccursAt(s, t, k))
      && (forall j :: OccursAt(s, t, j) ==> 0 <= k <= j)
  {
    assert s[0..] == s;
    if !(t <= s) && s != "" {
      FindFirst(s[1..], t);
      forall j | OccursAt(s, t, j) ensures OccursAt(s[1..], t, j - 1) {
        assert j > 0 && s[j..] == s[1..][j - 1..];
      }
      var k := Find(s[1..], t);
      if 0 <= k {
        assert s[1..][k..] == s[k + 1..];
      }
    }
  }

  /** `s.split(c)`: always at least one piece. */
  function Split(s: string, c: char): (w: seq<string>)
    ensures |w| >= 1
  {
    if s == "" then [""]
    else
      var w := Split(s[1..], c);
      if s[0] == c then [""] + w else [[s[0]] + w[0]] + w[1..]
  }

  /** `c.join(w)`. */
  function Join(w: seq<string>, c: char): string {
    if |w| == 0 then "" else if |w| == 1 then w[0] else w[0] + [c] + Join(w[1..], c)
  }

  /** `s.replace(t, '')`: every non-overlapping occurrence goes, left to right. */
  function Remove(s: string, t: string): string
    decreases |s|
  {
    if t == "" || s == "" then s
    else if t <= s then Remove(s[|t|..], t)
    else [s[0]] + Remove(s[1..], t)
  }

  /** Where t does not occur nothing goes. */
  lemma {:induction false} RemoveAbsent(s: string, t: string)
    requires forall k :: !OccursAt(s, t, k)
    ensures Remove(s, t) == s
    decreases |s|
  {
    if s != "" {
      assert s[0..] == s && !OccursAt(s, t, 0);
      forall k ensures !OccursAt(s[1..], t, k) {
        if 0 <= k < |s| { assert s[1..][k..] == s[k + 1..] && !OccursAt(s, t, k + 1); }
      }
      RemoveAbsent(s[1..], t);
    }
  }

  /** And where it first occurs it goes, and what is behind it is searched again. */
  lemma {:induction false} RemoveFirst(a: string, t: string, b: string)
    requires t != "" && forall k :: 0 <= k < |a| ==> !OccursAt(a + t + b, t, k)
    ensures Remove(a + t + b, t) == a + Remove(b, t)
    decreases |a|
  {
    var s := a + t + b;
    if a == "" {
      assert s[|t|..] == b;
    } else {
      assert s[0..] == s && !OccursAt(s, t, 0);
      assert s[1..] == a[1..] + t + b;
      forall k | 0 <= k < |a| - 1 ensures !OccursAt(a[1..] + t + b, t, k) {
        assert s[1..][k..] == s[k + 1..] && !OccursAt(s, t, k + 1);
      }
      RemoveFirst(a[1..], t, b);
      assert [s[0]] + a[1..] == a;
    }
  }

  /** A root in front of a path goes, if it occurs nowhere else in it. */
  lemma RemoveRoot(t: string, b: string)
    requires t != "" && forall k :: OccursAt(t + b, t, k) ==> k == 0
    ensures Remove(t + b, t) == b
  {
    assert "" + t + b == t + b;
    RemoveFirst("", t, b);
    forall k ensures !OccursAt(b, t, k) {
      if 0 <= k <= |b| { assert (t + b)[|t| + k..] == b[k..] && (OccursAt(t + b, t, |t| + k) ==> |t| + k == 0); }
    }
    RemoveAbsent(b, t);
  }

  /** `s.strip(c)` for a one-character c. */
  function Strip(s: string, c: char): string
    decreases |s|
  {
    if s == "" then s
    else if s[0] == c then Strip(s[1..], c)
    else if s[|s| - 1] == c then Strip(s[..|s| - 1], c)
    else s
  }

  /** `s.rfind('/')`. */
  function LastSlash(s: string): (k: int)
    ensures -1 <= k < |s|
  {
    if s == "" then -1
    else if s[|s| - 1] == '/' then |s| - 1
    else LastSlash(s[..|s| - 1])
  }

  /** All of c goes at both ends, and nothing else. */
  lemma {:induction false} StripExactly(s: string, c: char) returns (i: nat, j: nat)
    ensures i <= j <= |s| && Strip(s, c) == s[i..j] && (i < j ==> s[i] != c && s[j - 1] != c)
    ensures forall k :: 0 <= k < i || j <= k < |s| ==> s[k] == c
    decreases |s|
  {
    if s == "" {
      return 0, 0;
    } else if s[0] == c {
      i, j := StripExactly(s[1..], c);
      assert s[1..][i..j] == s[i + 1..j + 1];
      assert forall k :: 0 < k < |s| ==> s[k] == s[1..][k - 1];
      i, j := i + 1, j + 1;
    } else if s[|s| - 1] == c {
      i, j := StripExactly(s[..|s| - 1], c);
      assert s[..|s| - 1][i..j] == s[i..j];
    } else {
      return 0, |s|;
    }
  }

  predicate AllSlashes(s: string) { forall k :: 0 <= k < |s| ==> s[k] == '/' }

  function RStripSlash(s: string): string {
    if s != "" && s[|s| - 1] == '/' then RStripSlash(s[..|s| - 1]) else s
  }

  /** posixpath.split: everything before the last slash, without trailing slashes unless it is all
      slashes, and the part after it. */
  function SplitPath(p: string): (string, string) {
    var i := LastSlash(p) + 1;
    var head := p[..i];
    (if AllSlashes(head) then head else RStripSlash(head), p[i..])
  }

  /** A path is its head, slashes, and a name without one; the head ends in a slash only if it has nothing else. */
  lemma SplitPathExactly(p: string) returns (slashes: string)
    ensures var (head, name) := SplitPath(p);
      && p == head + slashes + name && AllSlashes(slashes) && '/' !in name
      && (head == "" ==> name == p)
      && (head != "" && head[|head| - 1] == '/' ==> AllSlashes(head) && slashes == "")
  {
    LastSlashIs(p);
    var i := LastSlash(p) + 1;
    assert p[..i] + p[i..] == p;
    if AllSlashes(p[..i]) {
      slashes := "";
      assert p[..i] + "" == p[..i];
    } else {
      slashes := StrippedHead(p[..i]);
    }
  }

  lemma StrippedHead(h: string) returns (slashes: string)
    requires !AllSlashes(h)
    ensures var r := RStripSlash(h); h == r + slashes && AllSlashes(slashes) && r != "" && r[|r| - 1] != '/'
  {
    RStripSlashIs(h);
    var r := RStripSlash(h);
    slashes := h[|r|..];
    assert h == h[..|r|] + h[|r|..];
    assert r == "" ==> slashes == h;
  }

  lemma {:induction false} LastSlashIs(s: string)
    ensures '/' !in s[LastSlash(s) + 1..] && (LastSlash(s) >= 0 ==> s[LastSlash(s)] == '/')
  {
    if s != "" && s[|s| - 1] != '/' {
      LastSlashIs(s[..|s| - 1]);
      var k := LastSlash(s) + 1;
      assert s[k..] == s[..|s| - 1][k..] + [s[|s| - 1]];
    }
  }

  lemma {:induction false} RStripSlashIs(s: string)
    ensures var r := RStripSlash(s); r <= s && AllSlashes(s[|r|..]) && (r != "" ==> r[|r| - 1] != '/')
  {
    if s != "" && s[|s| - 1] == '/' {
      var t := s[..|s| - 1];
      RStripSlashIs(t);
      var r := RStripSlash(t);
      assert s[|r|..] == t[|r|..] + ['/'];
    }
  }

  // ---- splitting and joining are inverse ---------------------------------------------------

  lemma {:induction false} JoinSplit(s: string, c: char)
    ensures Join(Split(s, c), c) == s
  {
    if s != "" {
      JoinSplit(s[1..], c);
      var w := Split(s[1..], c);
      if s[0] == c {
        assert ([""] + w)[1..] == w;
        assert Join([""] + w, c) == "" + [c] + Join(w, c);
      } else {
        var v := [[s[0]] + w[0]] + w[1..];
        assert v[1..] == w[1..];
        if |w| > 1 { assert Join(v, c) == ([s[0]] + w[0]) + [c] + Join(w[1..], c); }
      }
    }
  }

  lemma {:induction false} SplitPieces(s: string, c: char)
    ensures forall k :: 0 <= k < |Split(s, c)| ==> c !in Split(s, c)[k]
  {
    if s != "" { SplitPieces(s[1..], c); }
  }

  lemma {:induction false} SplitPlain(s: string, c: char)
    requires c !in s
    ensures Split(s, c) == [s]
  {
    if s != "" {
      assert c !in s[1..];
      SplitPlain(s[1..], c);
      assert [s[0]] + s[1..] == s;
    }
  }

  /** What one more character in front does to the pieces. */
  function PutFront(x: char, w: seq<string>, c: char): seq<string>
    requires |w| >= 1
  {
    if x == c then [""] + w else [[x] + w[0]] + w[1..]
  }

  lemma PutFrontAppend(x: char, v: seq<string>, w: seq<string>, c: char)
    requires |v| >= 1
    ensures PutFront(x, v + w, c) == PutFront(x, v, c) + w
  {}

  lemma {:induction false} SplitAppend(a: string, b: string, c: char)
    ensures Split(a + [c] + b, c) == Split(a, c) + Split(b, c)
    decreases |a|
  {
    var s := a + [c] + b;
    if a == "" {
      assert s[1..] == b;
    } else {
      SplitAppend(a[1..], b, c);
      assert s[1..] == a[1..] + [c] + b;
      assert Split(s, c) == PutFront(a[0], Split(s[1..], c), c);
      PutFrontAppend(a[0], Split(a[1..], c), Split(b, c), c);
    }
  }

  lemma {:induction false} SplitJoin(w: seq<string>, c: char)
    requires |w| >= 1
    requires forall k :: 0 <= k < |w| ==> c !in w[k]
    ensures Split(Join(w, c), c) == w
  {
    if |w| == 1 {
      SplitPlain(w[0], c);
    } else {
      SplitJoin(w[1..], c);
      SplitAppend(w[0], Join(w[1..], c), c);
      SplitPlain(w[0], c);
    }
  }

  lemma {:induction false} JoinSnoc(w: seq<string>, x: string, c: char)
    requires |w| >= 1
    ensures Join(w + [x], c) == Join(w, c) + [c] + x
  {
    if |w| > 1 {
      JoinSnoc(w[1..], x, c);
      assert (w + [x])[1..] == w[1..] + [x];
    } else {
      assert (w + [x])[1..] == [x];
    }
  }

  lemma {:induction false} LastSlashAt(a: string, b: string)
    requires '/' !in b
    ensures LastSlash(a + "/" + b) == |a|
    decreases |b|
  {
    var s := a + "/" + b;
    if b != "" {
      assert s[|s| - 1] == b[|b| - 1];
      assert s[..|s| - 1] == a + "/" + b[..|b| - 1];
      assert '/' !in b[..|b| - 1];
      LastSlashAt(a, b[..|b| - 1]);
    } else {
      assert s[|s| - 1] == '/';
    }
  }
}
