/** The idea behind the `seen` cache of meta2deps.py, away from paths and trees: a reader that lists what
    the directory of each file gives, and one that also remembers tokens it need not look at again. */
module SeenCache {
  import opened Wrappers
  import opened PyStrings

  /** counts: a file the parser looks at; dirOf: the directory a remembered token stands for; gives: the
      entries a directory puts into the source and the object list; marks: what it puts into the cache. */
  datatype Rules = Rules(
    counts: string -> bool,
    parent: string -> string,
    dirOf: string -> string,
    ignored: string -> bool,
    gives: string -> (Option<string>, Option<string>),
    marks: string -> set<string>)

  datatype Lists = Lists(seen: set<string>, src: seq<string>, obj: seq<string>)

  function AddOpt(list: seq<string>, x: Option<string>): seq<string> {
    if x.Some? then Add(list, x.value) else list
  }

  /** A file p that counts is read, named by token. */
  function Noted(k: Rules, l: Lists, p: string, token: string, cached: bool): Lists {
    var d := k.parent(p);
    if k.ignored(d) || (cached && d in l.seen) then l
    else Lists(l.seen + k.marks(d) + {token}, AddOpt(l.src, k.gives(d).0), AddOpt(l.obj, k.gives(d).1))
  }

  predicate Listed(l: Lists, c: (Option<string>, Option<string>)) {
    (c.0.Some? ==> c.0.value in l.src) && (c.1.Some? ==> c.1.value in l.obj)
  }

  ghost predicate Unread(k: Rules, d: string) { forall q :: k.counts(q) ==> k.parent(q) != d }

  /** Skipping the files of directory d loses nothing. */
  ghost predicate Covered(k: Rules, l: Lists, d: string) {
    k.ignored(d) || Listed(l, k.gives(d)) || Unread(k, d)
  }

  ghost predicate SeenCovered(k: Rules, l: Lists) {
    forall token :: token in l.seen ==> Covered(k, l, k.dirOf(token))
  }

  /** Whatever directory d marks has nothing to give that d does not give. */
  ghost predicate Honest(k: Rules, d: string) {
    && k.dirOf(d) == d
    && forall mark :: mark in k.marks(d) ==>
      && k.dirOf(mark) == mark
      && (k.ignored(mark) || Unread(k, mark) || Within(k.gives(mark), k.gives(d)))
  }

  predicate Within(a: (Option<string>, Option<string>), b: (Option<string>, Option<string>)) {
    (a.0.Some? ==> a.0 == b.0) && (a.1.Some? ==> a.1 == b.1)
  }

  /** One file, with and without the cache; with it, the whole record may be skipped on a known token. */
  lemma NoteAgrees(k: Rules, c: Lists, u: Lists, p: string, token: string)
    requires c.src == u.src && c.obj == u.obj && SeenCovered(k, c)
    requires k.counts(p) && (!k.ignored(k.parent(p)) ==> Honest(k, k.parent(p)))
    requires k.dirOf(k.parent(p)) == k.parent(p) && k.dirOf(token) == k.parent(p)
    ensures var v, n := Noted(k, u, p, token, false), Noted(k, c, p, token, true);
      && (token in c.seen ==> v.src == c.src && v.obj == c.obj)
      && n.src == v.src && n.obj == v.obj && SeenCovered(k, n)
  {
    var d := k.parent(p);
    var n := Noted(k, c, p, token, true);
    if !k.ignored(d) {
      if token in c.seen || d in c.seen {
        assert Covered(k, c, d);
      }
      if d !in c.seen {
        forall t | t in n.seen ensures Covered(k, n, k.dirOf(t)) {
          if t in c.seen { assert Covered(k, c, k.dirOf(t)); }
        }
      }
    }
  }
}
