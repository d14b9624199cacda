/** The command-line merge of awp/merge.py: load every named playlist,
    then merge the rest into a copy of the first with `extreme(16)` for
    weights and `extreme(0.5)` for volumes, and print the result. The
    printed text is returned. */
module MergeCli {
  import opened Wrappers
  import opened Errors
  import opened OrderedMaps
  import opened PlaylistFormat
  import opened Files
  import opened MergeStrategies
  import opened PlaylistMerge
  import opened Playlists

  const WEIGHT_MIDPOINT := 16.0
  const VOLUME_MIDPOINT := 0.5

  /** `map(Playlist, paths)`: every file is loaded, in order, and the first
      failure propagates. */
  function LoadAll(files: map<string, string>, nt: NumberText, paths: seq<string>): (r: Result<seq<Entries>, Error>)
    ensures r.Ok? ==> |r.value| == |paths| && forall i :: 0 <= i < |paths| ==> LoadedEntries(files, nt, paths[i]) == Ok(r.value[i])
    ensures r.Err? ==> exists i ::
      && 0 <= i < |paths| && LoadedEntries(files, nt, paths[i]) == Err(r.error)
      && forall j :: 0 <= j < i ==> LoadedEntries(files, nt, paths[j]).Ok?
  {
    if paths == [] then Ok([])
    else
      var first :- LoadedEntries(files, nt, paths[0]);
      var rest :- LoadAll(files, nt, paths[1..]);
      assert forall i :: 0 < i < |paths| ==> paths[i] == paths[1..][i - 1];
      Ok([first] + rest)
  }

  /** `loaded` followed by what loading the remaining paths gives. */
  function Prepend(loaded: seq<Entries>, r: Result<seq<Entries>, Error>): Result<seq<Entries>, Error> {
    if r.Err? then r else Ok(loaded + r.value)
  }

  lemma LoadAllStep(files: map<string, string>, nt: NumberText, paths: seq<string>, i: nat, loaded: seq<Entries>, m: Entries)
    requires i < |paths| && LoadedEntries(files, nt, paths[i]) == Ok(m)
    ensures Prepend(loaded, LoadAll(files, nt, paths[i..])) == Prepend(loaded + [m], LoadAll(files, nt, paths[i + 1..]))
  {
    assert paths[i..][0] == paths[i] && paths[i..][1..] == paths[i + 1..];
    var rest := LoadAll(files, nt, paths[i + 1..]);
    if rest.Ok? {
      assert loaded + ([m] + rest.value) == loaded + [m] + rest.value;
    }
  }

  ghost predicate AllValid(ms: seq<Entries>) {
    forall i :: 0 <= i < |ms| ==> ms[i].Valid()
  }

  /** `result.merge(playlist, strategy)` for each later playlist, in order. */
  function Fold(m: Entries, others: seq<Entries>): (r: Entries)
    requires m.Valid() && AllValid(others)
    ensures r.Valid()
    decreases |others|
  {
    if others == [] then m
    else
      Fold(MergeStep(m, others[0]), others[1..])
  }

  /** `m.merge(o, (extreme(16), extreme(0.5)))` on entries. */
  function MergeStep(m: Entries, o: Entries): (r: Entries)
    requires m.Valid() && o.Valid()
    ensures r.Valid()
  {
    MergeChanges(m, false, Diff(m, o), Extreme(WEIGHT_MIDPOINT), Extreme(VOLUME_MIDPOINT)).entries
  }

  /** `p` is a path of one of `ms`. */
  ghost predicate InSome(p: Path, ms: seq<Entries>) {
    exists i :: 0 <= i < |ms| && p in ms[i].vals
  }

  lemma InSomeCons(p: Path, ms: seq<Entries>)
    requires ms != []
    ensures InSome(p, ms) <==> p in ms[0].vals || InSome(p, ms[1..])
  {
    if InSome(p, ms) {
      var i :| 0 <= i < |ms| && p in ms[i].vals;
      if i > 0 {
        assert ms[1..][i - 1] == ms[i];
      }
    }
    if InSome(p, ms[1..]) {
      var i :| 0 <= i < |ms[1..]| && p in ms[1..][i].vals;
      assert ms[1..][i] == ms[i + 1];
    }
  }

  /** One merge keeps the target's paths first and in order, appends the
      other's new paths in the other's order, and holds exactly the paths of
      both sides. */
  lemma MergeStepKeys(m: Entries, o: Entries)
    requires m.Valid() && o.Valid()
    ensures MergeStep(m, o).keys == m.keys + NotIn(o.keys, m.vals)
    ensures forall p :: p in MergeStep(m, o).vals <==> p in m.vals || p in o.vals
  {
    var m1 := MergeStep(m, o);
    MergeKeysAreUnion(m, o, false, Extreme(WEIGHT_MIDPOINT), Extreme(VOLUME_MIDPOINT));
    NotInMembers(o.keys, m.vals);
    assert m1.keys == m.keys + NotIn(o.keys, m.vals);
    forall p ensures p in m1.vals <==> p in m.vals || p in o.vals {
      assert p in m1.vals <==> p in m1.keys;
      assert p in m.vals <==> p in m.keys;
      assert p in o.vals <==> p in o.keys;
    }
  }

  /** The paths of `ms`, input after input, each in its input's order. */
  function AllKeys(ms: seq<Entries>): seq<Path> {
    if ms == [] then [] else ms[0].keys + AllKeys(ms[1..])
  }

  /** The paths of `s` not in `seen`, each at its first occurrence. */
  function FirstNew(s: seq<Path>, seen: set<Path>): (r: seq<Path>)
    ensures forall p :: p in r ==> p in s && p !in seen
  {
    if s == [] then []
    else if s[0] in seen then FirstNew(s[1..], seen)
    else [s[0]] + FirstNew(s[1..], seen + {s[0]})
  }

  lemma {:induction false} FirstNewAppend(a: seq<Path>, b: seq<Path>, seen: set<Path>)
    ensures FirstNew(a + b, seen) == FirstNew(a, seen) + FirstNew(b, seen + set x | x in a)
    decreases |a|
  {
    if a == [] {
      assert a + b == b;
      assert seen + (set x | x in a) == seen;
    } else {
      var seen' := if a[0] in seen then seen else seen + {a[0]};
      var head := if a[0] in seen then [] else [a[0]];
      FirstNewHead(a + b, seen);
      assert (a + b)[0] == a[0] && (a + b)[1..] == a[1..] + b;
      FirstNewAppend(a[1..], b, seen');
      FirstNewHead(a, seen);
      SeenAfterHead(a, seen);
      ConcatAssoc(head, FirstNew(a[1..], seen'), FirstNew(b, seen' + set x | x in a[1..]));
    }
  }

  /** One step of `FirstNew`: the head is kept when unseen, then the rest follows. */
  lemma FirstNewHead(s: seq<Path>, seen: set<Path>)
    requires s != []
    ensures FirstNew(s, seen) == (if s[0] in seen then [] else [s[0]])
      + FirstNew(s[1..], if s[0] in seen then seen else seen + {s[0]})
  {
    if s[0] in seen {
      assert [] + FirstNew(s[1..], seen) == FirstNew(s[1..], seen);
    }
  }

  /** Taking the head into `seen` and then the rest is taking all of `a`. */
  lemma SeenAfterHead(a: seq<Path>, seen: set<Path>)
    requires a != []
    ensures (if a[0] in seen then seen else seen + {a[0]}) + (set x | x in a[1..]) == seen + set x | x in a
  {
    forall p ensures p in a <==> p == a[0] || p in a[1..] {
      assert a == [a[0]] + a[1..];
    }
  }

  /** Adding a path the rest never mentions to `seen` changes nothing. */
  lemma {:induction false} FirstNewIgnores(s: seq<Path>, seen: set<Path>, p: Path)
    requires p !in s
    ensures FirstNew(s, seen + {p}) == FirstNew(s, seen)
    decreases |s|
  {
    if s != [] {
      assert s[0] != p && p !in s[1..];
      if s[0] in seen {
        FirstNewIgnores(s[1..], seen, p);
      } else {
        FirstNewIgnores(s[1..], seen + {s[0]}, p);
        assert seen + {p} + {s[0]} == seen + {s[0]} + {p};
      }
    }
  }

  /** On distinct paths, keeping first occurrences is keeping the new ones. */
  lemma {:induction false} FirstNewDistinct(s: seq<Path>, vals: map<Path, Entry>)
    requires Distinct(s)
    ensures FirstNew(s, vals.Keys) == NotIn(s, vals)
    decreases |s|
  {
    if s != [] {
      DistinctHead(s);
      FirstNewDistinct(s[1..], vals);
      NotInCons(s, vals);
      if s[0] !in vals {
        assert s[0] !in s[1..];
        FirstNewIgnores(s[1..], vals.Keys, s[0]);
      }
    }
  }

  /** The merged playlist holds exactly the paths of all inputs: the first
      one's paths in its order, then each path found only in later inputs,
      at its first occurrence, in input order. */
  lemma {:induction false} FoldKeysAreUnion(m: Entries, others: seq<Entries>)
    requires m.Valid() && AllValid(others)
    ensures Fold(m, others).keys == m.keys + FirstNew(AllKeys(others), m.vals.Keys)
    ensures forall p :: p in Fold(m, others).vals <==> p in m.vals || InSome(p, others)
    decreases |others|
  {
    if others == [] {
      assert m.keys + [] == m.keys;
    } else {
      var o := others[0];
      var m1 := MergeStep(m, o);
      MergeStepKeys(m, o);
      var rest := others[1..];
      assert AllValid(rest);
      FoldKeysAreUnion(m1, rest);
      forall p ensures p in Fold(m, others).vals <==> p in m.vals || InSome(p, others) {
        InSomeCons(p, others);
      }
      FoldOrderStep(m, o, m1, AllKeys(rest));
    }
  }

  /** The key order of one step of the fold, on the key sequences alone. */
  lemma FoldOrderStep(m: Entries, o: Entries, m1: Entries, later: seq<Path>)
    requires m.Valid() && o.Valid() && m1.Valid()
    requires m1.keys == m.keys + NotIn(o.keys, m.vals)
    requires forall p :: p in m1.vals <==> p in m.vals || p in o.vals
    ensures m1.keys + FirstNew(later, m1.vals.Keys) == m.keys + FirstNew(o.keys + later, m.vals.Keys)
  {
    var seen, added := m.vals.Keys, set x | x in o.keys;
    forall p ensures p in m1.vals.Keys <==> p in seen + added {
      assert p in o.vals <==> p in o.keys;
    }
    assert m1.vals.Keys == seen + added;
    FirstNewAppend(o.keys, later, seen);
    FirstNewDistinct(o.keys, m.vals);
    ConcatAssoc(m.keys, NotIn(o.keys, m.vals), FirstNew(later, seen + added));
  }

  /** The loop over the later playlists, merging each into `result`; the
      later playlists are not changed. */
  method FoldInto(fs: FileSystem, nt: NumberText, result: Playlist, others: seq<Playlist>, ghost all: seq<Entries>)
    requires result.Valid() && result !in others
    requires |all| == |others| && forall i :: 0 <= i < |others| ==> others[i].Valid() && others[i].entries == all[i]
    modifies result
    ensures result.Valid() && AllValid(all)
    ensures result.entries == Fold(old(result.entries), all)
    ensures forall i :: 0 <= i < |others| ==> others[i].entries == all[i]
  {
    var i := 0;
    assert all[i..] == all;
    while i < |others|
      invariant 0 <= i <= |others| && result.Valid()
      invariant AllValid(all[i..])
      invariant Fold(result.entries, all[i..]) == Fold(old(result.entries), all)
    {
      MergeNext(fs, nt, result, others[i], all, i);
      i := i + 1;
    }
    assert all[i..] == [];
  }

  /** One turn of the loop: merging the `i`-th later playlist moves the fold on by one. */
  method MergeNext(fs: FileSystem, nt: NumberText, result: Playlist, other: Playlist, ghost all: seq<Entries>, i: nat)
    requires result.Valid() && other.Valid() && result != other
    requires i < |all| && AllValid(all[i..]) && other.entries == all[i]
    modifies result
    ensures result.Valid() && AllValid(all[i + 1..])
    ensures Fold(result.entries, all[i + 1..]) == Fold(old(result.entries), all[i..])
  {
    FoldStep(result.entries, all, i);
    var e := MergeOne(fs, nt, result, other);
  }

  lemma FoldStep(m: Entries, all: seq<Entries>, i: nat)
    requires m.Valid() && i < |all| && AllValid(all[i..])
    ensures all[i].Valid() && AllValid(all[i + 1..])
    ensures Fold(m, all[i..]) == Fold(MergeStep(m, all[i]), all[i + 1..])
  {
    assert all[i..][0] == all[i] && all[i..][1..] == all[i + 1..];
  }

  /** `result.merge(other, strategy)` with the command's strategy pair,
      which never raises. */
  method MergeOne(fs: FileSystem, nt: NumberText, result: Playlist, other: Playlist) returns (err: Option<Error>)
    requires result.Valid() && other.Valid() && result != other
    modifies result
    ensures result.Valid() && err == None
    ensures result.entries == MergeStep(old(result.entries), other.entries)
  {
    var w, v := Extreme(WEIGHT_MIDPOINT), Extreme(VOLUME_MIDPOINT);
    MergeKeysAreUnion(result.entries, other.entries, result.dirty, w, v);
    MergeAnyDirty(result.entries, result.dirty, false, Diff(result.entries, other.entries), w, v);
    err := result.Merge(fs, nt, FromPlaylist(other), Pair(w, v));
  }

  /** What merge's loop stores does not depend on the dirty flag it starts with. */
  lemma {:induction false} MergeAnyDirty(m: Entries, d1: bool, d2: bool, cs: seq<Change>, sw: Strategy, sv: Strategy)
    requires m.Valid()
    ensures MergeChanges(m, d1, cs, sw, sv).entries == MergeChanges(m, d2, cs, sw, sv).entries
    ensures MergeChanges(m, d1, cs, sw, sv).error == MergeChanges(m, d2, cs, sw, sv).error
    decreases |cs|
  {
    if cs != [] {
      MergeChangesCons(m, d1, cs, sw, sv);
      MergeChangesCons(m, d2, cs, sw, sv);
      match MergeItem(cs[0], sw, sv) {
        case Err(e) =>
        case Ok(None) =>
          MergeAnyDirty(m.Remove(cs[0].path), d1, d2, cs[1..], sw, sv);
        case Ok(Some(e)) =>
      }
    }
  }

  /** `merge(*paths)`: nothing is printed for no paths; a file that fails
      to load ends the command; otherwise the canonical text of the merge
      of all of them. */
  method MergeFiles(fs: FileSystem, nt: NumberText, paths: seq<string>) returns (out: Option<string>, err: Option<Error>)
    ensures var loaded := LoadAll(fs.files, nt, paths);
      if loaded.Err? then out == None && err == Some(loaded.error)
      else if paths == [] then out == None && err == None
      else
        && |loaded.value| == |paths| && AllValid(loaded.value)
        && err == None && out == Some(Serialize(nt, Fold(loaded.value[0], loaded.value[1..])))
  {
    var playlists;
    ghost var loaded;
    playlists, loaded, err := LoadPlaylists(fs, nt, paths);
    if err.Some? {
      return None, err;
    }
    if playlists == [] {
      return None, None;
    }
    var result := playlists[0].Copy();
    FoldInto(fs, nt, result, playlists[1..], loaded[1..]);
    var text := result.Write(nt);
    out := Some(text);
  }

  /** `map(Playlist, paths)`. */
  method LoadPlaylists(fs: FileSystem, nt: NumberText, paths: seq<string>)
    returns (playlists: seq<Playlist>, ghost loaded: seq<Entries>, err: Option<Error>)
    ensures var r := LoadAll(fs.files, nt, paths);
      if r.Err? then err == Some(r.error)
      else
        && err == None && loaded == r.value && |playlists| == |paths|
        && Hold(playlists, loaded)
  {
    playlists, loaded := [], [];
    var i := 0;
    assert paths[i..] == paths;
    assert Prepend(loaded, LoadAll(fs.files, nt, paths)) == LoadAll(fs.files, nt, paths) by {
      var r := LoadAll(fs.files, nt, paths);
      if r.Ok? {
        assert [] + r.value == r.value;
      }
    }
    while i < |paths|
      invariant 0 <= i <= |paths| && |playlists| == i && |loaded| == i
      invariant Hold(playlists, loaded)
      invariant Prepend(loaded, LoadAll(fs.files, nt, paths[i..])) == LoadAll(fs.files, nt, paths)
    {
      var p, loadErr := Open(fs, nt, Some(paths[i]));
      if loadErr.Some? {
        LoadAllStepErr(fs.files, nt, paths, i, loaded, loadErr.value);
        return playlists, loaded, loadErr;
      }
      LoadAllStep(fs.files, nt, paths, i, loaded, p.entries);
      HoldAppend(playlists, loaded, p);
      playlists := playlists + [p];
      loaded := loaded + [p.entries];
      i := i + 1;
    }
    LoadAllDone(fs.files, nt, paths[i..], loaded);
    err := None;
  }

  /** Nothing left to load adds nothing. */
  lemma LoadAllDone(files: map<string, string>, nt: NumberText, rest: seq<string>, loaded: seq<Entries>)
    requires |rest| == 0
    ensures Prepend(loaded, LoadAll(files, nt, rest)) == Ok(loaded)
  {
    assert loaded + [] == loaded;
  }

  /** Each playlist holds the corresponding entries. */
  ghost predicate Hold(ps: seq<Playlist>, ms: seq<Entries>)
    reads set p | p in ps
  {
    |ps| == |ms| && forall j :: 0 <= j < |ps| ==> ps[j].Valid() && ps[j].entries == ms[j]
  }

  lemma HoldAppend(ps: seq<Playlist>, ms: seq<Entries>, p: Playlist)
    requires Hold(ps, ms) && p.Valid()
    ensures Hold(ps + [p], ms + [p.entries])
  {
  }

  lemma LoadAllStepErr(files: map<string, string>, nt: NumberText, paths: seq<string>, i: nat, loaded: seq<Entries>, e: Error)
    requires i < |paths| && LoadedEntries(files, nt, paths[i]) == Err(e)
    ensures Prepend(loaded, LoadAll(files, nt, paths[i..])) == Err(e)
  {
    assert paths[i..][0] == paths[i];
  }
}
