/** `Playlist.diff` and the fold at the heart of `Playlist.merge` in
    awp/playlist.py, on entry maps. */
module PlaylistMerge {
  import opened Wrappers
  import opened Errors
  import opened OrderedMaps
  import opened PlaylistFormat
  import opened MergeStrategies

  /** One item of a diff: a path with its entry in each playlist. */
  datatype Change = Change(path: Path, ours: Option<Entry>, theirs: Option<Entry>)

  /** The paths of `a`, then those only in `b` in `b`'s order: the keys of
      `a.copy()` after `update(b)`. */
  function UnionPaths(a: Entries, b: Entries): (r: seq<Path>)
    requires a.Valid() && b.Valid()
    ensures r == a.PutAll(b).keys
    ensures Distinct(r)
    ensures forall p :: p in r <==> p in a.vals || p in b.vals
  {
    a.PutAll(b).keys
  }

  /** The changes for those of `paths` whose entries differ. */
  function DiffOver(paths: seq<Path>, a: Entries, b: Entries): (r: seq<Change>)
    ensures forall i :: 0 <= i < |r| ==> r[i] == Change(r[i].path, a.Get(r[i].path), b.Get(r[i].path))
    ensures forall i :: 0 <= i < |r| ==> r[i].path in paths && a.Get(r[i].path) != b.Get(r[i].path)
    ensures forall p :: p in paths && a.Get(p) != b.Get(p) ==> p in PathsOf(r)
  {
    if paths == [] then []
    else
      var p := paths[0];
      var rest := DiffOver(paths[1..], a, b);
      assert forall q :: q in paths ==> q == p || q in paths[1..];
      if a.Get(p) != b.Get(p) then
        PathsOfCons(Change(p, a.Get(p), b.Get(p)), rest);
        [Change(p, a.Get(p), b.Get(p))] + rest
      else rest
  }

  lemma PathsOfCons(c: Change, rest: seq<Change>)
    ensures PathsOf([c] + rest) == [c.path] + PathsOf(rest)
  {
  }

  lemma DiffOverCons(p: Path, ps: seq<Path>, a: Entries, b: Entries)
    ensures DiffOver([p] + ps, a, b) ==
      if a.Get(p) != b.Get(p) then [Change(p, a.Get(p), b.Get(p))] + DiffOver(ps, a, b) else DiffOver(ps, a, b)
  {
    assert ([p] + ps)[1..] == ps;
  }

  /** One step of the walk over `paths`, at index `i`. */
  lemma DiffOverStep(paths: seq<Path>, i: nat, a: Entries, b: Entries)
    requires i < |paths|
    ensures DiffOver(paths[i..], a, b) ==
      (if a.Get(paths[i]) != b.Get(paths[i]) then [Change(paths[i], a.Get(paths[i]), b.Get(paths[i]))] else [])
      + DiffOver(paths[i + 1..], a, b)
  {
    assert paths[i..] == [paths[i]] + paths[i + 1..];
    DiffOverCons(paths[i], paths[i + 1..], a, b);
  }

  /** One pass of diff's loop keeps the collected changes plus the changes
      still to come equal to the whole diff. */
  lemma DiffLoopStep(ret: seq<Change>, paths: seq<Path>, i: nat, a: Entries, b: Entries)
    requires i < |paths| && ret + DiffOver(paths[i..], a, b) == DiffOver(paths, a, b)
    ensures var p := paths[i];
      (if a.Get(p) != b.Get(p) then ret + [Change(p, a.Get(p), b.Get(p))] else ret) + DiffOver(paths[i + 1..], a, b)
        == DiffOver(paths, a, b)
  {
    var p := paths[i];
    var rest := DiffOver(paths[i + 1..], a, b);
    DiffOverStep(paths, i, a, b);
    if a.Get(p) != b.Get(p) {
      ConcatAssoc(ret, [Change(p, a.Get(p), b.Get(p))], rest);
    } else {
      assert [] + rest == rest;
    }
  }

  lemma NotInConsHead<K, V>(k: K, ks: seq<K>, m: map<K, V>)
    ensures NotIn([k] + ks, m) == (if k in m then [] else [k]) + NotIn(ks, m)
  {
    assert ([k] + ks)[1..] == ks;
  }

  /** `a.diff(b)` as the sequence of its items. */
  function Diff(a: Entries, b: Entries): seq<Change>
    requires a.Valid() && b.Valid()
  {
    DiffOver(UnionPaths(a, b), a, b)
  }

  function PathsOf(cs: seq<Change>): (r: seq<Path>)
    ensures |r| == |cs| && forall i :: 0 <= i < |cs| ==> r[i] == cs[i].path
  {
    seq(|cs|, i requires 0 <= i < |cs| => cs[i].path)
  }

  /** `s` is `t` with some elements left out, order kept. */
  predicate Subsequence<T(==)>(s: seq<T>, t: seq<T>)
    decreases |t|
  {
    if s == [] then true
    else if t == [] then false
    else if s[0] == t[0] then Subsequence(s[1..], t[1..])
    else Subsequence(s, t[1..])
  }

  /** A diff's paths follow the union order: `a`'s order, then `b`-only
      paths in `b`'s order. */
  lemma {:induction false} DiffOverOrdered(paths: seq<Path>, a: Entries, b: Entries)
    ensures Subsequence(PathsOf(DiffOver(paths, a, b)), paths)
  {
    if paths != [] {
      DiffOverOrdered(paths[1..], a, b);
      var rest := DiffOver(paths[1..], a, b);
      if a.Get(paths[0]) != b.Get(paths[0]) {
        assert PathsOf(DiffOver(paths, a, b))[1..] == PathsOf(rest);
      } else {
        SubsequenceSkip(PathsOf(rest), paths);
      }
    }
  }

  lemma SubsequenceSkip<T>(s: seq<T>, t: seq<T>)
    requires t != [] && Subsequence(s, t[1..])
    ensures Subsequence(s, t)
    decreases |s| + |t|
  {
    if s != [] && s[0] == t[0] {
      SubsequenceTail(s, t[1..]);
    }
  }

  lemma {:induction false} SubsequenceTail<T>(s: seq<T>, t: seq<T>)
    requires s != [] && Subsequence(s, t)
    ensures Subsequence(s[1..], t)
    decreases |s| + |t|
  {
    if t != [] {
      if s[0] == t[0] {
        SubsequenceSkip(s[1..], t);
      } else {
        SubsequenceTail(s, t[1..]);
        SubsequenceSkip(s[1..], t);
      }
    }
  }

  lemma {:induction false} DiffOverDistinct(paths: seq<Path>, a: Entries, b: Entries)
    requires Distinct(paths)
    ensures Distinct(PathsOf(DiffOver(paths, a, b)))
  {
    if paths != [] {
      DistinctHead(paths);
      DiffOverDistinct(paths[1..], a, b);
    }
  }

  /** A diff lists exactly the paths whose entries differ, each once, each
      with both sides' entries, in union order. */
  lemma DiffProperties(a: Entries, b: Entries)
    requires a.Valid() && b.Valid()
    ensures forall p :: p in PathsOf(Diff(a, b)) <==> a.Get(p) != b.Get(p)
    ensures forall c :: c in Diff(a, b) ==> c == Change(c.path, a.Get(c.path), b.Get(c.path))
    ensures Distinct(PathsOf(Diff(a, b)))
    ensures Subsequence(PathsOf(Diff(a, b)), a.keys + NotIn(b.keys, a.vals))
  {
    var u := UnionPaths(a, b);
    DiffOverMembers(u, a, b);
    DiffOverDistinct(u, a, b);
    DiffOverOrdered(u, a, b);
    forall p | a.Get(p) != b.Get(p) ensures p in u {
      assert p in a.vals || p in b.vals;
    }
  }

  /** The paths a diff over `paths` lists are those of `paths` whose
      entries differ. */
  lemma DiffOverMembers(paths: seq<Path>, a: Entries, b: Entries)
    ensures forall p :: p in PathsOf(DiffOver(paths, a, b)) <==> p in paths && a.Get(p) != b.Get(p)
  {
    var d := DiffOver(paths, a, b);
    forall p | p in PathsOf(d) ensures p in paths && a.Get(p) != b.Get(p) {
      var i :| 0 <= i < |d| && PathsOf(d)[i] == p;
      assert d[i].path == p;
    }
  }

  /** `x.diff(x)` is empty. */
  lemma DiffSelfEmpty(a: Entries)
    requires a.Valid()
    ensures Diff(a, a) == []
  {
    DiffOverSame(UnionPaths(a, a), a);
  }

  lemma {:induction false} DiffOverSame(paths: seq<Path>, a: Entries)
    ensures DiffOver(paths, a, a) == []
  {
    if paths != [] {
      DiffOverSame(paths[1..], a);
    }
  }

  /** Either side of a diff item as the pair of its fields, both None when absent. */
  function Fields(e: Option<Entry>): (Option<real>, Option<real>) {
    match e
    case None => (None, None)
    case Some(x) => (Some(x.weight), Some(x.volume))
  }

  /** The entries, dirty flag and, if raised, the exception after merge's
      loop. */
  datatype Merged = Merged(entries: Entries, dirty: bool, error: Option<Error>)

  /** What merge's loop does with one diff item: the merged entry, None to
      pop the path, or the exception a strategy raised. The weight strategy
      runs first. */
  function MergeItem(c: Change, sw: Strategy, sv: Strategy): Result<Option<Entry>, Error> {
    var (ow, ov) := Fields(c.ours);
    var (tw, tv) := Fields(c.theirs);
    var w :- Apply(sw, c.path, ow, tw);
    var v :- Apply(sv, c.path, ov, tv);
    Ok(if w.None? || v.None? then None else Some(Entry(w.value, v.value)))
  }

  /** merge's loop over the diff items, left to right. Popping does not
      touch `dirty`; `add_item` sets it. */
  function MergeChanges(m: Entries, dirty: bool, cs: seq<Change>, sw: Strategy, sv: Strategy): (r: Merged)
    requires m.Valid()
    ensures r.entries.Valid()
    decreases |cs|
  {
    if cs == [] then Merged(m, dirty, None)
    else
      match MergeItem(cs[0], sw, sv)
      case Err(e) => Merged(m, dirty, Some(e))
      case Ok(None) => MergeChanges(m.Remove(cs[0].path), dirty, cs[1..], sw, sv)
      case Ok(Some(e)) => MergeChanges(m.Put(cs[0].path, e), true, cs[1..], sw, sv)
  }

  /** One step of merge's loop, at index `i` of the diff items. */
  lemma MergeChangesStep(m: Entries, dirty: bool, cs: seq<Change>, i: nat, sw: Strategy, sv: Strategy)
    requires m.Valid() && i < |cs|
    ensures MergeChanges(m, dirty, cs[i..], sw, sv) ==
      var item := MergeItem(cs[i], sw, sv);
      if item.Err? then Merged(m, dirty, Some(item.error))
      else if item.value.None? then MergeChanges(m.Remove(cs[i].path), dirty, cs[i + 1..], sw, sv)
      else MergeChanges(m.Put(cs[i].path, item.value.value), true, cs[i + 1..], sw, sv)
  {
    assert cs[i..][0] == cs[i] && cs[i..][1..] == cs[i + 1..];
  }

  /** The first step of merge's loop. */
  lemma MergeChangesCons(m: Entries, dirty: bool, cs: seq<Change>, sw: Strategy, sv: Strategy)
    requires m.Valid() && cs != []
    ensures MergeChanges(m, dirty, cs, sw, sv) ==
      var item := MergeItem(cs[0], sw, sv);
      if item.Err? then Merged(m, dirty, Some(item.error))
      else if item.value.None? then MergeChanges(m.Remove(cs[0].path), dirty, cs[1..], sw, sv)
      else MergeChanges(m.Put(cs[0].path, item.value.value), true, cs[1..], sw, sv)
  {
  }

  /** Merge's loop with no items left ends with no exception. */
  lemma MergeChangesDone(m: Entries, dirty: bool, rest: seq<Change>, sw: Strategy, sv: Strategy)
    requires m.Valid() && |rest| == 0
    ensures MergeChanges(m, dirty, rest, sw, sv) == Merged(m, dirty, None)
  {
  }

  function VolumeSum(ks: seq<Path>, vals: map<Path, Entry>): real
    requires forall k :: k in ks ==> k in vals
  {
    if ks == [] then 0.0 else vals[ks[0]].volume + VolumeSum(ks[1..], vals)
  }

  /** `sum(vol for ...) / len(self.entries)`: the default volume midpoint,
      ZeroDivisionError on an empty playlist. */
  function MeanVolume(m: Entries): (r: Result<real, Error>)
    requires m.Valid()
    ensures r.Err? <==> m.keys == []
    ensures r.Err? ==> r.error == ZeroDivision
    ensures r.Ok? ==> r.value * (|m.keys| as real) == VolumeSum(m.keys, m.vals)
  {
    if |m.keys| == 0 then Err(ZeroDivision) else Ok(VolumeSum(m.keys, m.vals) / |m.keys| as real)
  }

  /** A sum of volumes that each lie in `[lo, hi]` lies between `|ks|` times each bound. */
  lemma {:induction false} VolumeSumBounds(ks: seq<Path>, vals: map<Path, Entry>, lo: real, hi: real)
    requires forall k :: k in ks ==> k in vals && lo <= vals[k].volume <= hi
    ensures lo * (|ks| as real) <= VolumeSum(ks, vals) <= hi * (|ks| as real)
  {
    if ks != [] {
      VolumeSumBounds(ks[1..], vals, lo, hi);
    }
  }

  /** The default volume midpoint lies between the playlist's quietest and
      loudest volume. */
  lemma MeanWithinVolumes(m: Entries, lo: real, hi: real)
    requires m.Valid() && m.keys != []
    requires forall k :: k in m.vals ==> lo <= m.vals[k].volume <= hi
    ensures MeanVolume(m).Ok? && lo <= MeanVolume(m).value <= hi
  {
    var n := |m.keys| as real;
    VolumeSumBounds(m.keys, m.vals, lo, hi);
    QuotientBetween(MeanVolume(m).value, n, VolumeSum(m.keys, m.vals), lo, hi);
  }

  /** A quotient of a sum bounded by `lo * n` and `hi * n` lies in `[lo, hi]`. */
  lemma QuotientBetween(q: real, n: real, sum: real, lo: real, hi: real)
    requires n > 0.0 && q * n == sum && lo * n <= sum <= hi * n
    ensures lo <= q <= hi
  {
    assert (q - lo) * n == q * n - lo * n;
    assert (hi - q) * n == hi * n - q * n;
    NonNegativeFactor(q - lo, n);
    NonNegativeFactor(hi - q, n);
  }

  lemma NonNegativeFactor(a: real, n: real)
    requires n > 0.0 && a * n >= 0.0
    ensures a >= 0.0
  {
  }

  /** The strategy pair for `arg`; computing the default's midpoint can fail. */
  function ChooseStrategies(m: Entries, arg: StrategyArg): (r: Result<(Strategy, Strategy), Error>)
    requires m.Valid()
    ensures r.Err? <==> arg.Default? && m.keys == []
    ensures r.Err? ==> r.error == ZeroDivision
    ensures arg.Single? ==> r == Ok((arg.s, arg.s))
    ensures arg.Pair? ==> r == Ok((arg.weight, arg.volume))
    ensures arg.Default? && m.keys != [] ==>
      r == Ok((Average, Extreme(VolumeSum(m.keys, m.vals) / |m.keys| as real)))
  {
    if arg.Default? then
      var mean :- MeanVolume(m);
      Ok((Average, Extreme(mean)))
    else Ok(Strategies(arg, 0.0))
  }

  /** Paths no diff item names keep their entry, whatever the strategies. */
  lemma {:induction false} MergeLeavesOthers(m: Entries, dirty: bool, cs: seq<Change>, sw: Strategy, sv: Strategy, p: Path)
    requires m.Valid() && p !in PathsOf(cs)
    ensures MergeChanges(m, dirty, cs, sw, sv).entries.Get(p) == m.Get(p)
    decreases |cs|
  {
    if cs != [] {
      assert PathsOf(cs[1..]) == PathsOf(cs)[1..];
      assert p != cs[0].path by {
        assert PathsOf(cs)[0] == cs[0].path;
      }
      MergeChangesCons(m, dirty, cs, sw, sv);
      match MergeItem(cs[0], sw, sv)
      case Err(_) =>
      case Ok(None) =>
        var next := m.Remove(cs[0].path);
        assert next.Get(p) == m.Get(p);
        MergeLeavesOthers(next, dirty, cs[1..], sw, sv, p);
      case Ok(Some(e)) =>
        var next := m.Put(cs[0].path, e);
        assert next.Get(p) == m.Get(p);
        MergeLeavesOthers(next, true, cs[1..], sw, sv, p);
    }
  }

  /** A merge that changes an entry leaves `dirty` set; one that only pops
      paths leaves it as it was. */
  lemma {:induction false} MergeDirty(m: Entries, dirty: bool, cs: seq<Change>, sw: Strategy, sv: Strategy)
    requires m.Valid()
    ensures var r := MergeChanges(m, dirty, cs, sw, sv);
      r.dirty == (dirty || exists i :: 0 <= i < |cs| && Upserts(cs, i, sw, sv))
    decreases |cs|
  {
    if cs != [] {
      MergeChangesCons(m, dirty, cs, sw, sv);
      match MergeItem(cs[0], sw, sv)
      case Err(_) =>
        assert !Upserts(cs, 0, sw, sv);
        forall i | 0 < i < |cs| ensures !Upserts(cs, i, sw, sv) { }
      case Ok(None) =>
        MergeDirty(m.Remove(cs[0].path), dirty, cs[1..], sw, sv);
        UpsertsShift(cs, sw, sv);
      case Ok(Some(e)) =>
        MergeDirty(m.Put(cs[0].path, e), true, cs[1..], sw, sv);
        assert Upserts(cs, 0, sw, sv);
    }
  }

  /** Item `i` is reached with no earlier strategy failing, and is upserted. */
  predicate Upserts(cs: seq<Change>, i: int, sw: Strategy, sv: Strategy)
    requires 0 <= i < |cs|
  {
    (forall j :: 0 <= j < i ==> MergeItem(cs[j], sw, sv).Ok?) && MergeItem(cs[i], sw, sv) .Ok? &&
      MergeItem(cs[i], sw, sv).value.Some?
  }

  lemma UpsertsShift(cs: seq<Change>, sw: Strategy, sv: Strategy)
    requires cs != [] && MergeItem(cs[0], sw, sv) == Ok(None)
    ensures (exists i :: 0 <= i < |cs| && Upserts(cs, i, sw, sv)) <==>
            (exists i :: 0 <= i < |cs[1..]| && Upserts(cs[1..], i, sw, sv))
  {
    if exists i :: 0 <= i < |cs| && Upserts(cs, i, sw, sv) {
      var i :| 0 <= i < |cs| && Upserts(cs, i, sw, sv);
      UpsertsDrop(cs, i, sw, sv);
    }
    if exists i :: 0 <= i < |cs[1..]| && Upserts(cs[1..], i, sw, sv) {
      var i :| 0 <= i < |cs[1..]| && Upserts(cs[1..], i, sw, sv);
      UpsertsAdd(cs, i, sw, sv);
    }
  }

  lemma UpsertsDrop(cs: seq<Change>, i: nat, sw: Strategy, sv: Strategy)
    requires i < |cs| && MergeItem(cs[0], sw, sv) == Ok(None) && Upserts(cs, i, sw, sv)
    ensures 0 < i && Upserts(cs[1..], i - 1, sw, sv)
  {
    forall j | 0 <= j < i - 1 ensures MergeItem(cs[1..][j], sw, sv).Ok? {
      assert MergeItem(cs[j + 1], sw, sv).Ok?;
    }
  }

  lemma UpsertsAdd(cs: seq<Change>, i: nat, sw: Strategy, sv: Strategy)
    requires 0 < |cs| && i < |cs| - 1 && MergeItem(cs[0], sw, sv) == Ok(None) && Upserts(cs[1..], i, sw, sv)
    ensures Upserts(cs, i + 1, sw, sv)
  {
    forall j | 0 <= j < i + 1 ensures MergeItem(cs[j], sw, sv).Ok? {
      if j > 0 {
        assert cs[j] == cs[1..][j - 1];
      }
    }
  }

  /** The entry a pair of never-dropping strategies gives an item. */
  function Combined(c: Change, sw: Strategy, sv: Strategy): (e: Entry)
    requires NeverDrops(sw) && NeverDrops(sv) && (c.ours.Some? || c.theirs.Some?)
    ensures MergeItem(c, sw, sv) == Ok(Some(e))
  {
    var (ow, ov) := Fields(c.ours);
    var (tw, tv) := Fields(c.theirs);
    NeverDropsKeeps(sw, c.path, ow, tw);
    NeverDropsKeeps(sv, c.path, ov, tv);
    Entry(Apply(sw, c.path, ow, tw).value.value, Apply(sv, c.path, ov, tv).value.value)
  }

  /** With strategies that never drop, every item is upserted: nothing
      fails, every named path gets its combined entry, and paths new to
      the playlist are appended in item order. */
  lemma {:induction false} MergeNeverDropping(m: Entries, dirty: bool, cs: seq<Change>, sw: Strategy, sv: Strategy)
    requires m.Valid() && NeverDrops(sw) && NeverDrops(sv)
    requires forall c :: c in cs ==> c.ours.Some? || c.theirs.Some?
    requires Distinct(PathsOf(cs))
    ensures MergeChanges(m, dirty, cs, sw, sv).error == None
    ensures MergeChanges(m, dirty, cs, sw, sv).entries.keys == m.keys + NotIn(PathsOf(cs), m.vals)
    ensures forall i :: 0 <= i < |cs| ==> MergeChanges(m, dirty, cs, sw, sv).entries.Get(cs[i].path) == Some(Combined(cs[i], sw, sv))
    decreases |cs|
  {
    if cs == [] {
      assert m.keys + [] == m.keys;
    } else {
      var c := cs[0];
      var e := Combined(c, sw, sv);
      var next := m.Put(c.path, e);
      var ps := PathsOf(cs);
      DistinctHead(ps);
      assert PathsOf(cs[1..]) == ps[1..];
      MergeNeverDropping(next, true, cs[1..], sw, sv);
      var r := MergeChanges(m, dirty, cs, sw, sv);
      assert r == MergeChanges(next, true, cs[1..], sw, sv);
      NotInSame(ps[1..], m.vals, c.path, e);
      NotInCons(ps, m.vals);
      ConcatAssoc(m.keys, [c.path], NotIn(ps[1..], m.vals));
      forall i | 0 <= i < |cs| ensures r.entries.Get(cs[i].path) == Some(Combined(cs[i], sw, sv)) {
        if i == 0 {
          MergeLeavesOthers(next, true, cs[1..], sw, sv, c.path);
        } else {
          assert cs[i] == cs[1..][i - 1];
        }
      }
    }
  }

  /** Union-keys of `a.merge(b)` with never-dropping strategies: `a`'s
      paths in place, then `b`-only paths in `b`'s order — the same keys as
      `a.update(b)`. */
  lemma MergeKeysAreUnion(a: Entries, b: Entries, dirty: bool, sw: Strategy, sv: Strategy)
    requires a.Valid() && b.Valid() && NeverDrops(sw) && NeverDrops(sv)
    ensures MergeChanges(a, dirty, Diff(a, b), sw, sv).error == None
    ensures MergeChanges(a, dirty, Diff(a, b), sw, sv).entries.keys == a.keys + NotIn(b.keys, a.vals)
  {
    var d := Diff(a, b);
    DiffProperties(a, b);
    forall c | c in d ensures c.ours.Some? || c.theirs.Some? {
      assert a.Get(c.path) != b.Get(c.path);
    }
    MergeNeverDropping(a, dirty, d, sw, sv);
    NewPathsOfDiff(a, b);
  }

  /** The diff's paths that `a` lacks are exactly `b`'s paths that `a` lacks, in order. */
  lemma NewPathsOfDiff(a: Entries, b: Entries)
    requires a.Valid() && b.Valid()
    ensures NotIn(PathsOf(Diff(a, b)), a.vals) == NotIn(b.keys, a.vals)
  {
    var newPaths := NotIn(b.keys, a.vals);
    var u := UnionPaths(a, b);
    assert u == a.keys + newPaths;
    NotInOfDiffOver(u, a, b);
    assert NotIn(u, a.vals) == newPaths by {
      NotInAppend(a.keys, newPaths, a.vals);
      NotInAllPresent(a.keys, a.vals);
      NotInIdem(b.keys, a.vals);
    }
    NotInMembers(b.keys, a.vals);
    DiffOverAllDiffer(newPaths, a, b);
  }

  /** Filtering by difference, then keeping paths new to `a`, is keeping
      paths new to `a`, then filtering. */
  lemma {:induction false} NotInOfDiffOver(ps: seq<Path>, a: Entries, b: Entries)
    ensures NotIn(PathsOf(DiffOver(ps, a, b)), a.vals) == PathsOf(DiffOver(NotIn(ps, a.vals), a, b))
  {
    if ps != [] {
      var p, tail := ps[0], ps[1..];
      assert ps == [p] + tail;
      NotInOfDiffOver(tail, a, b);
      var rest := DiffOver(tail, a, b);
      NotInConsHead(p, tail, a.vals);
      DiffOverCons(p, tail, a, b);
      if a.Get(p) != b.Get(p) {
        PathsOfCons(Change(p, a.Get(p), b.Get(p)), rest);
        NotInConsHead(p, PathsOf(rest), a.vals);
        if p !in a.vals {
          DiffOverCons(p, NotIn(tail, a.vals), a, b);
          PathsOfCons(Change(p, a.Get(p), b.Get(p)), DiffOver(NotIn(tail, a.vals), a, b));
        } else {
          assert NotIn(ps, a.vals) == NotIn(tail, a.vals);
        }
      } else if p !in a.vals {
        DiffOverCons(p, NotIn(tail, a.vals), a, b);
      } else {
        assert NotIn(ps, a.vals) == NotIn(tail, a.vals);
      }
    }
  }

  lemma {:induction false} NotInAppend<K, V>(s: seq<K>, t: seq<K>, m: map<K, V>)
    ensures NotIn(s + t, m) == NotIn(s, m) + NotIn(t, m)
  {
    if s == [] {
      assert s + t == t;
    } else {
      assert (s + t)[1..] == s[1..] + t;
      NotInAppend(s[1..], t, m);
      NotInCons(s + t, m);
      NotInCons(s, m);
    }
  }

  lemma {:induction false} NotInAllPresent<K, V>(s: seq<K>, m: map<K, V>)
    requires forall k :: k in s ==> k in m
    ensures NotIn(s, m) == []
  {
    if s != [] {
      NotInAllPresent(s[1..], m);
    }
  }

  lemma {:induction false} NotInIdem<K, V>(s: seq<K>, m: map<K, V>)
    ensures NotIn(NotIn(s, m), m) == NotIn(s, m)
  {
    if s != [] {
      NotInIdem(s[1..], m);
      NotInCons(s, m);
      if s[0] !in m {
        NotInCons(NotIn(s, m), m);
        assert NotIn(s, m)[1..] == NotIn(s[1..], m);
      }
    }
  }

  /** When every path differs, the diff keeps them all. */
  lemma {:induction false} DiffOverAllDiffer(ps: seq<Path>, a: Entries, b: Entries)
    requires forall p :: p in ps ==> a.Get(p) != b.Get(p)
    ensures PathsOf(DiffOver(ps, a, b)) == ps
  {
    if ps != [] {
      DiffOverAllDiffer(ps[1..], a, b);
      assert PathsOf(DiffOver(ps, a, b)) == [ps[0]] + PathsOf(DiffOver(ps[1..], a, b));
    }
  }
}
