/** The claim about the `seen` cache of meta2deps.py: when it leaves src_deps and obj_deps as the parser without
    it would list them, exactly. */
module MetaTransparent {
  import opened PyStrings
  import opened CleanPath
  import opened MetaSpec
  import opened MetaProcess
  import opened MetaCache
  import opened MetaHides

  // ---- the claim ----------------------------------------------------------------------------------

  /** Traces of absolute names: any directories may be read. */
  predicate AbsoluteTrace(w: World, home: string, start: string, t: seq<Record>) {
    AllFit(w, home, start, Absolute, t)
  }

  /** Traces that also use names relative to the directory of their process: no directory is read, and each name
      is used from one directory. */
  predicate RelativeTrace(w: World, home: string, start: string, t: seq<Record>) {
    AllFit(w, home, start, WithRelative, t) && OneDirEach(w, start, t)
  }

  /** An absolute name tells its directory, also inside the quotes of a link record. */
  function Unquoted(): string -> string { token => Parent(Strip(token, '\'')) }

  lemma CoveredName(w: World, kind: Kind, d: string, r: Record)
    requires r.IsFileOp() && FileRecord(w, kind, d, r) && !IsSkipped(r)
    ensures Names(w, kind, d, NameOf(r))
  {}

  lemma AbsoluteName(w: World, d: string, r: Record)
    requires r.IsFileOp() && Names(w, Absolute, d, NameOf(r)) && !("/" <= r.path)
    ensures Parent(Spelled(d, NameOf(r))) == Unquoted()(r.path)
  {
    assert "/" <= NameOf(r);
    assert NameOf(r) == Strip(r.path, '\'');
  }

  lemma AbsolutePlaced(w: World, home: string, start: string, t: seq<Record>)
    requires AbsoluteTrace(w, home, start, t)
    ensures Placed(w, start, Unquoted(), t)
  {
    forall i: nat | i < |t| && Uses(t, i) ensures Unquoted()(t[i].path) == FileDir(w, start, t, i) {
      assert FitsAt(w, home, start, Absolute, t, i);
      var d := CwdOf(Chdirs(w), start, t[..i], t[i].pid);
      CoveredName(w, Absolute, d, t[i]);
      AbsoluteName(w, d, t[i]);
    }
  }

  /** The one directory that token is used for, if it is. */
  ghost function PlaceOf(w: World, start: string, t: seq<Record>, token: string): string {
    if exists i: nat :: i < |t| && Uses(t, i) && t[i].path == token then
      var i: nat :| i < |t| && Uses(t, i) && t[i].path == token;
      FileDir(w, start, t, i)
    else ""
  }

  lemma RelativePlaced(w: World, start: string, t: seq<Record>) returns (place: string -> string)
    requires OneDirEach(w, start, t)
    ensures Placed(w, start, place, t)
  {
    place := token => PlaceOf(w, start, t, token);
    forall i: nat | i < |t| && Uses(t, i) ensures place(t[i].path) == FileDir(w, start, t, i) {
      assert t[i].path == t[i].path;
    }
  }

  lemma FreshAgree(w: World, home: string, start: string, place: string -> string)
    ensures Agree(w, home, place, Fresh(start), Fresh(start))
  {}

  /** For a given file system and configuration: the cache leaves src_deps and obj_deps of every trace of absolute
      names exactly as the parser without it, if and only if no readable file sits behind a link that hides its
      directory. */
  lemma CacheTransparentExactly(w: World, home: string, start: string)
    requires Setting(w, home)
    ensures (forall t :: AbsoluteTrace(w, home, start, t) ==> SameDeps(w, start, t)) <==> NothingHidden(w, home)
  {
    if NothingHidden(w, home) {
      forall t | AbsoluteTrace(w, home, start, t) ensures SameDeps(w, start, t) {
        AbsolutePlaced(w, home, start, t);
        FreshAgree(w, home, start, Unquoted());
        RunsAgree(w, home, Unquoted(), Absolute, Fresh(start), Fresh(start), t);
      }
    } else {
      var p, q :| HiddenPair(w, home, p, q);
      HiddenPairShows(w, home, start, Absolute, p, q);
    }
  }

  /** And the same of every trace with relative names. */
  lemma RelativeTransparentExactly(w: World, home: string, start: string)
    requires Setting(w, home)
    ensures (forall t :: RelativeTrace(w, home, start, t) ==> SameDeps(w, start, t)) <==> NothingHidden(w, home)
  {
    if NothingHidden(w, home) {
      forall t | RelativeTrace(w, home, start, t) ensures SameDeps(w, start, t) {
        var place := RelativePlaced(w, start, t);
        FreshAgree(w, home, start, place);
        RunsAgree(w, home, place, WithRelative, Fresh(start), Fresh(start), t);
      }
    } else {
      var p, q :| HiddenPair(w, home, p, q);
      HiddenPairShows(w, home, start, WithRelative, p, q);
    }
  }

  // ---- several meta files -------------------------------------------------------------------------

  /** The meta files of one directory, which share one cache: place says where each name is used, in all of them. */
  predicate AllFilesFit(w: World, home: string, start: string, place: string -> string, kind: Kind,
                        files: seq<seq<Record>>) {
    forall k :: 0 <= k < |files| ==> AllFit(w, home, start, kind, files[k]) && Placed(w, start, place, files[k])
  }

  lemma {:induction false} AllFilesAgree(w: World, home: string, start: string, place: string -> string, kind: Kind,
                                         files: seq<seq<Record>>)
    requires Setting(w, home) && NothingHidden(w, home) && AllFilesFit(w, home, start, place, kind, files)
    ensures var c, u := RunAll(w, start, Fresh(start), files, true), RunAll(w, start, Fresh(start), files, false);
      SameDepsAll(w, start, files) && Agree(w, home, place, Next(c, start), Next(u, start))
    decreases |files|
  {
    if files != [] {
      var n := |files| - 1;
      AllFilesAgree(w, home, start, place, kind, files[..n]);
      var c, u := RunAll(w, start, Fresh(start), files[..n], true), RunAll(w, start, Fresh(start), files[..n], false);
      RunsAgree(w, home, place, kind, Next(c, start), Next(u, start), files[n]);
    }
  }

  lemma PairShowsInFiles(w: World, home: string, start: string, place: string -> string, kind: Kind, p: string,
                         q: string)
    requires Setting(w, home) && HiddenPair(w, home, p, q)
    ensures var files := [Exhibit(home, p, q)];
      AllFilesFit(w, home, start, place, kind, files) && !SameDepsAll(w, start, files)
  {
    var t := Exhibit(home, p, q);
    HiddenPairShows(w, home, start, kind, p, q);
    ExhibitPlaced(w, start, place, home, p, q);
    OneFile(w, start, t, true);
    OneFile(w, start, t, false);
  }

  lemma ExhibitPlaced(w: World, start: string, place: string -> string, home: string, p: string, q: string)
    requires "/" <= p && "/" <= q
    ensures Placed(w, start, place, Exhibit(home, p, q))
  {
    var t := Exhibit(home, p, q);
    assert forall i: nat | i < |t| && t[i].IsFileOp() :: "/" <= t[i].path;
  }

  /** The same claim for whole runs over meta files of one directory. */
  lemma AllFilesTransparentExactly(w: World, home: string, start: string, place: string -> string, kind: Kind)
    requires Setting(w, home)
    ensures (forall files :: AllFilesFit(w, home, start, place, kind, files) ==> SameDepsAll(w, start, files))
       <==> NothingHidden(w, home)
  {
    if NothingHidden(w, home) {
      forall files | AllFilesFit(w, home, start, place, kind, files) ensures SameDepsAll(w, start, files) {
        AllFilesAgree(w, home, start, place, kind, files);
      }
    } else {
      var p, q :| HiddenPair(w, home, p, q);
      PairShowsInFiles(w, home, start, place, kind, p, q);
    }
  }
}
