/** `Playlist` of awp/playlist.py: an ordered map from path to (weight,
    volume), a `dirty` flag for changes not yet written, and the file it was
    last read from. */
module Playlists {
  import opened Wrappers
  import opened Errors
  import opened Text
  import opened OrderedMaps
  import opened PlaylistFormat
  import opened Files
  import opened MergeStrategies
  import opened PlaylistMerge
  import opened RepeatedLists
  import Rand

  /** One field argument of `update`: None keeps the old value, a callable
      maps it, anything else replaces it. */
  datatype FieldUpdate = Keep | SetTo(value: real) | MapWith(f: real -> real)

  function ApplyField(u: FieldUpdate, current: real): real {
    match u
    case Keep => current
    case SetTo(x) => x
    case MapWith(f) => f(current)
  }

  /** An optional replacement value: None keeps the old one. */
  function Replacement(o: Option<real>): (u: FieldUpdate)
    ensures forall x :: ApplyField(u, x) == o.GetOr(x)
  {
    if o.None? then Keep else SetTo(o.value)
  }

  /** The entry `update` stores. */
  function Updated(e: Entry, weight: FieldUpdate, volume: FieldUpdate): Entry {
    Entry(ApplyField(weight, e.weight), ApplyField(volume, e.volume))
  }

  /** `update(p, lambda x: x*2)` doubles the weight and keeps the volume. */
  lemma DoubleWeightKeepsVolume(e: Entry)
    ensures Updated(e, MapWith(x => x * 2.0), Keep) == Entry(e.weight * 2.0, e.volume)
    ensures Updated(Entry(2.0, 0.5), MapWith(x => x * 2.0), Keep) == Entry(4.0, 0.5)
  {
  }

  /** A Python string argument is false when empty; None is false too. */
  predicate Given(p: Option<string>) {
    p.Some? && p.value != []
  }

  /** The entries a file holds when loaded into an empty playlist, or the
      exception loading raises; an empty name loads nothing. */
  function LoadedEntries(files: map<string, string>, nt: NumberText, path: string): (r: Result<Entries, Error>)
    ensures r.Ok? ==> r.value.Valid()
  {
    if path == [] then Ok(Empty())
    else if path !in files then Err(NoSuchFile(path))
    else
      var p := ParseLines(nt, Lines(files[path]));
      if p.error.Some? then Err(p.error.value) else Ok(PutRecords(Empty(), p.records))
  }

  /** No path loaded from a file holds a newline. */
  lemma LoadedPathsHaveNoNewline(nt: NumberText, files: map<string, string>, path: string)
    ensures LoadedEntries(files, nt, path).Ok? ==> forall k :: k in LoadedEntries(files, nt, path).value.vals ==> '\n' !in k
  {
    if path != [] && path in files {
      var lines := Lines(files[path]);
      LinesHaveNoInnerNewline(files[path]);
      ParsedPathsHaveNoNewline(nt, lines);
      PutRecordsNoNewline(Empty(), ParseLines(nt, lines).records);
    }
  }

  /** A file holding what `write` emitted for `m` loads back as `m`, when
      every stored number round-trips and no path holds a newline. */
  lemma ReloadSaved(files: map<string, string>, nt: NumberText, path: string, m: Entries)
    requires m.Valid() && path != [] && path in files && files[path] == Serialize(nt, m)
    requires forall k :: k in m.vals ==> '\n' !in k && EntryOk(nt, m.vals[k])
    ensures LoadedEntries(files, nt, path) == Ok(m)
  {
    LoadSerialized(nt, m);
  }

  /** The (key, weight) pairs `next` builds, keyed by (path, volume), in the
      dict's iteration order `order`. */
  function ChoiceTable(m: Entries, order: seq<Path>): (d: seq<((Path, real), real)>)
    requires forall k :: k in order ==> k in m.vals
    ensures |d| == |order|
    ensures forall i :: 0 <= i < |d| ==> d[i] == ((order[i], m.vals[order[i]].volume), m.vals[order[i]].weight)
  {
    seq(|order|, i requires 0 <= i < |order| => ((order[i], m.vals[order[i]].volume), m.vals[order[i]].weight))
  }

  /** The other side of a merge: a playlist, or a file name to load. */
  datatype MergeSource = FromPlaylist(p: Playlist) | FromFile(path: string)

  class Playlist {
    var entries: Entries
    var dirty: bool
    var filepath: Option<string>

    ghost predicate Valid()
      reads this
    {
      entries.Valid()
    }

    /** `Playlist()`: empty, clean, with no file. */
    constructor()
      ensures Valid() && entries == Empty() && !dirty && filepath == None
    {
      entries := Empty();
      dirty := false;
      filepath := None;
    }

    /** `add_item(path, weight, volume)`: an existing path keeps its place,
        a new one goes last; the playlist becomes dirty. The overwrite
        warning is output only. */
    method AddItem(path: Path, weight: real, volume: real)
      requires Valid()
      modifies this
      ensures Valid()
      ensures entries == old(entries).Put(path, Entry(weight, volume))
      ensures dirty && filepath == old(filepath)
    {
      dirty := true;
      entries := entries.Put(path, Entry(weight, volume));
    }

    /** `readfile(path)`: remembers the path, then adds each record of the
        file in turn; a bad line stops the load with its records before it
        already added. */
    method ReadFile(fs: FileSystem, nt: NumberText, path: string) returns (err: Option<Error>)
      requires Valid()
      modifies this
      ensures Valid() && filepath == Some(path)
      ensures path !in fs.files ==> err == Some(NoSuchFile(path)) && entries == old(entries) && dirty == old(dirty)
      ensures path in fs.files ==>
        var p := ParseLines(nt, Lines(fs.files[path]));
        && err == p.error
        && entries == PutRecords(old(entries), p.records)
        && dirty == (old(dirty) || p.records != [])
    {
      filepath := Some(path);
      var text := fs.Read(path);
      if text.None? {
        return Some(NoSuchFile(path));
      }
      err := AddLines(nt, Lines(text.value));
    }

    /** readfile's loop over the lines of the file. */
    method AddLines(nt: NumberText, lines: seq<string>) returns (err: Option<Error>)
      requires Valid()
      modifies this
      ensures Valid() && filepath == old(filepath)
      ensures var p := ParseLines(nt, lines);
        && err == p.error
        && entries == PutRecords(old(entries), p.records)
        && dirty == (old(dirty) || p.records != [])
    {
      LoadLinesParses(nt, entries, dirty, lines);
      ghost var spec := LoadLines(nt, entries, dirty, lines);
      var i := 0;
      assert lines[i..] == lines;
      while i < |lines|
        invariant 0 <= i <= |lines| && Valid() && filepath == old(filepath)
        invariant LoadLines(nt, entries, dirty, lines[i..]) == spec
      {
        LoadLinesStep(nt, entries, dirty, lines, i);
        var parsed := ParseLine(nt, lines[i]);
        match parsed {
          case Err(e) =>
            return Some(e);
          case Ok(None) =>
          case Ok(Some(rec)) =>
            AddItem(rec.path, rec.entry.weight, rec.entry.volume);
        }
        i := i + 1;
      }
      assert lines[i..] == [];
      return None;
    }

    /** `write(f)`: one canonical line per entry, in entry order. */
    method Write(nt: NumberText) returns (text: string)
      requires Valid()
      ensures text == Serialize(nt, entries)
    {
      text := [];
      var i := 0;
      while i < |entries.keys|
        invariant 0 <= i <= |entries.keys|
        invariant text + SerializeKeys(nt, entries.keys[i..], entries.vals) == Serialize(nt, entries)
      {
        var p := entries.keys[i];
        assert entries.keys[i..][1..] == entries.keys[i + 1..];
        text := text + FormatRecord(nt, p, entries.vals[p]);
        i := i + 1;
      }
      assert entries.keys[i..] == [];
    }

    /** `writefile(path, atomic)`: the target is the argument or else the
        remembered file; atomically, the text goes to `.NAME~` beside it,
        which is then renamed over it. The playlist becomes clean. */
    method WriteFile(fs: FileSystem, nt: NumberText, path: Option<string>, atomic: bool) returns (err: Option<Error>)
      requires Valid()
      modifies this, fs
      ensures Valid() && entries == old(entries) && filepath == old(filepath)
      ensures var target := if Given(path) then path else old(filepath);
        if !Given(target) then
          err == Some(NoFilepath) && fs.files == old(fs.files) && dirty == old(dirty)
        else
          && err == None && !dirty
          && (atomic ==> fs.files == (old(fs.files) - {TempPath(target.value)})[target.value := Serialize(nt, entries)])
          && (!atomic ==> fs.files == old(fs.files)[target.value := Serialize(nt, entries)])
    {
      var target := if Given(path) then path else filepath;
      if !Given(target) {
        return Some(NoFilepath);
      }
      var text := Write(nt);
      if atomic {
        ReplaceAtomically(fs, target.value, text);
      } else {
        fs.Write(target.value, text);
      }
      dirty := false;
      return None;
    }

    /** Writes `text` to `.NAME~` beside `target`, then renames it over `target`. */
    static method ReplaceAtomically(fs: FileSystem, target: string, text: string)
      modifies fs
      ensures fs.files == (old(fs.files) - {TempPath(target)})[target := text]
    {
      var tmp := TempPath(target);
      TempPathDiffers(target);
      fs.Write(tmp, text);
      var renamed := fs.Rename(tmp, target);
      assert renamed == None;
      WriteThenRemove(old(fs.files), tmp, text);
    }

    /** `update(path, weight, volume)`: KeyError for an unknown path;
        otherwise the entry is replaced in place and the playlist is dirty. */
    method Update(path: Path, weight: FieldUpdate, volume: FieldUpdate) returns (err: Option<Error>)
      requires Valid()
      modifies this
      ensures Valid() && filepath == old(filepath)
      ensures path !in old(entries.vals) ==> err == Some(NoSuchPath(path)) && entries == old(entries) && dirty == old(dirty)
      ensures path in old(entries.vals) ==>
        && err == None && dirty
        && entries == old(entries).Put(path, Updated(old(entries.vals[path]), weight, volume))
        && entries.keys == old(entries.keys)
    {
      var current := entries.Get(path);
      if current.None? {
        return Some(NoSuchPath(path));
      }
      var e := Updated(current.value, weight, volume);
      AddItem(path, e.weight, e.volume);
      return None;
    }

    /** `next()`: a weighted draw over (path, volume) keys; `order` is the
        dict's iteration order and `x` the scaled draw. */
    method Next(order: seq<Path>, x: real) returns (r: Option<(Path, real)>)
      requires Valid()
      requires |order| == |entries.keys| && Distinct(order) && forall k :: k in order <==> k in entries.vals
      ensures var d := ChoiceTable(entries, order);
        r == Rand.KeyAt(d, Rand.Choose(d, x))
      ensures r.Some? ==> r.value.0 in entries.vals && r.value.1 == entries.vals[r.value.0].volume
      ensures entries.keys == [] ==> r == None
    {
      var d := ChoiceTable(entries, order);
      r := Rand.WeightedChoice(d, x);
      if entries.keys == [] {
        assert order == [];
      }
    }

    /** `copy()`: a new clean playlist with no file and the same entries. */
    method Copy() returns (r: Playlist)
      requires Valid()
      ensures fresh(r) && r.Valid()
      ensures r.entries == entries && !r.dirty && r.filepath == None
    {
      r := new Playlist();
      r.entries := entries;
    }

    /** `diff(other)`: loops over the union of paths, keeping those whose
        entries differ. */
    method Diff(other: Playlist) returns (ret: seq<Change>)
      requires Valid() && other.Valid()
      ensures ret == PlaylistMerge.Diff(entries, other.entries)
    {
      var a, b := entries, other.entries;
      var paths := a.PutAll(b).keys;
      ret := [];
      var i := 0;
      assert paths[i..] == paths;
      while i < |paths|
        invariant 0 <= i <= |paths|
        invariant ret + DiffOver(paths[i..], a, b) == DiffOver(paths, a, b)
      {
        var p := paths[i];
        DiffLoopStep(ret, paths, i, a, b);
        var ours, theirs := a.Get(p), b.Get(p);
        if ours != theirs {
          ret := ret + [Change(p, ours, theirs)];
        }
        i := i + 1;
      }
      assert paths[i..] == [];
    }

    /** `merge(other, strategy)`: the strategies are settled first (the
        default divides by the number of entries), then a file name is
        loaded, then each diff item is merged in turn; a strategy that
        raises stops the loop with the earlier items already merged. */
    method Merge(fs: FileSystem, nt: NumberText, src: MergeSource, arg: StrategyArg) returns (err: Option<Error>)
      requires Valid()
      requires src.FromPlaylist? ==> src.p.Valid()
      modifies this
      ensures Valid() && filepath == old(filepath)
      ensures var strategies := ChooseStrategies(old(entries), arg);
        var theirs := if src.FromPlaylist? then Ok(old(src.p.entries)) else LoadedEntries(fs.files, nt, src.path);
        if strategies.Err? then
          err == Some(strategies.error) && entries == old(entries) && dirty == old(dirty)
        else if theirs.Err? then
          err == Some(theirs.error) && entries == old(entries) && dirty == old(dirty)
        else
          var r := MergeChanges(old(entries), old(dirty), PlaylistMerge.Diff(old(entries), theirs.value),
                                strategies.value.0, strategies.value.1);
          err == r.error && entries == r.entries && dirty == r.dirty
    {
      var strategies := ChooseStrategies(entries, arg);
      if strategies.Err? {
        return Some(strategies.error);
      }
      var (sw, sv) := strategies.value;
      var other: Playlist;
      if src.FromPlaylist? {
        other := src.p;
      } else {
        other := new Playlist();
        if src.path != [] {
          var loadErr := other.ReadFile(fs, nt, src.path);
          if loadErr.Some? {
            return loadErr;
          }
        }
      }
      var items := Diff(other);
      err := MergeItems(items, sw, sv);
    }

    /** merge's loop: each diff item in turn, the earlier ones kept when a
        strategy raises. */
    method MergeItems(items: seq<Change>, sw: Strategy, sv: Strategy) returns (err: Option<Error>)
      requires Valid()
      modifies this
      ensures Valid() && filepath == old(filepath)
      ensures Merged(entries, dirty, err) == MergeChanges(old(entries), old(dirty), items, sw, sv)
    {
      ghost var spec := MergeChanges(entries, dirty, items, sw, sv);
      assert spec == MergeChanges(old(entries), old(dirty), items, sw, sv);
      err := None;
      var i := 0;
      assert items[i..] == items;
      while i < |items|
        invariant 0 <= i <= |items| && Valid() && filepath == old(filepath)
        invariant MergeChanges(entries, dirty, items[i..], sw, sv) == spec && err == None
      {
        err := MergeNextItem(items, i, sw, sv, spec);
        if err.Some? {
          return;
        }
        i := i + 1;
      }
      MergeChangesDone(entries, dirty, items[i..], sw, sv);
    }

    /** One turn of merge's loop: the item at `i` moves the merge on by one. */
    method MergeNextItem(items: seq<Change>, i: nat, sw: Strategy, sv: Strategy, ghost spec: Merged) returns (err: Option<Error>)
      requires Valid() && i < |items| && MergeChanges(entries, dirty, items[i..], sw, sv) == spec
      modifies this
      ensures Valid() && filepath == old(filepath)
      ensures err.Some? ==> Merged(entries, dirty, err) == spec
      ensures err.None? ==> MergeChanges(entries, dirty, items[i + 1..], sw, sv) == spec
    {
      MergeChangesStep(entries, dirty, items, i, sw, sv);
      err := ApplyItem(items[i], sw, sv);
    }

    /** The body of merge's loop for one diff item: the strategies' result
        is removed or stored, or their exception is passed on. */
    method ApplyItem(c: Change, sw: Strategy, sv: Strategy) returns (err: Option<Error>)
      requires Valid()
      modifies this
      ensures Valid() && filepath == old(filepath)
      ensures var item := MergeItem(c, sw, sv);
        if item.Err? then err == Some(item.error) && entries == old(entries) && dirty == old(dirty)
        else if item.value.None? then err == None && entries == old(entries).Remove(c.path) && dirty == old(dirty)
        else err == None && entries == old(entries).Put(c.path, item.value.value) && dirty
    {
      var merged := MergeItem(c, sw, sv);
      match merged {
        case Err(e) =>
          return Some(e);
        case Ok(None) =>
          entries := entries.Remove(c.path);
        case Ok(Some(e)) =>
          AddItem(c.path, e.weight, e.volume);
      }
      return None;
    }

    /** `_common_divisor_weight()` over this playlist's weights. */
    method CommonDivisorWeight() returns (r: Result<real, Error>)
      requires Valid()
      ensures r == IntendedDivisor(Weights(entries))
    {
      r := CommonDivisor(Weights(entries));
    }

    /** `to_repeated_list(scale)`: a missing or zero scale is replaced by
        the common divisor; each path is repeated `int(weight / scale)`
        times, in entry order. */
    method ToRepeatedList(scale: Option<real>) returns (r: Result<seq<Path>, Error>)
      requires Valid()
      ensures scale.Some? && scale.value != 0.0 ==> r == Ok(RepeatedFrom(entries.keys, entries.vals, scale.value))
      ensures scale.None? || scale == Some(0.0) ==>
        match IntendedDivisor(Weights(entries))
        case Err(e) => r == Err(e)
        case Ok(s) => s != 0.0 && r == Ok(RepeatedFrom(entries.keys, entries.vals, s))
    {
      var s: real;
      if scale.None? || scale.value == 0.0 {
        var d := CommonDivisorWeight();
        IntendedDivisorProperties(Weights(entries));
        if d.Err? {
          return Err(d.error);
        }
        s := d.value;
      } else {
        s := scale.value;
      }
      var result := RepeatedList(s);
      return Ok(result);
    }

    /** to_repeated_list's loop: each path `int(weight / scale)` times, in entry order. */
    method RepeatedList(s: real) returns (result: seq<Path>)
      requires Valid() && s != 0.0
      ensures result == RepeatedFrom(entries.keys, entries.vals, s)
    {
      var ks, vals := entries.keys, entries.vals;
      result := [];
      var i := 0;
      assert ks[i..] == ks;
      while i < |ks|
        invariant 0 <= i <= |ks|
        invariant result + RepeatedFrom(ks[i..], vals, s) == RepeatedFrom(ks, vals, s)
      {
        var p := ks[i];
        RepeatedFromStep(ks, i, vals, s);
        var copies := Copies(vals[p].weight, s);
        result := result + Repeat(p, copies);
        i := i + 1;
      }
      assert ks[i..] == [];
      assert RepeatedFrom(ks[i..], vals, s) == [];
    }
  }

  /** `Playlist(filepath)`: a name loads that file; an empty name or none
      gives an empty playlist. */
  method Open(fs: FileSystem, nt: NumberText, path: Option<string>) returns (p: Playlist, err: Option<Error>)
    ensures fresh(p) && p.Valid()
    ensures !Given(path) ==> err == None && p.entries == Empty() && !p.dirty && p.filepath == None
    ensures Given(path) ==> p.filepath == path
    ensures Given(path) && path.value !in fs.files ==> err == Some(NoSuchFile(path.value)) && p.entries == Empty()
    ensures Given(path) && path.value in fs.files ==>
      var parsed := ParseLines(nt, Lines(fs.files[path.value]));
      err == parsed.error && p.entries == PutRecords(Empty(), parsed.records) && p.dirty == (parsed.records != [])
  {
    p := new Playlist();
    err := None;
    if Given(path) {
      err := p.ReadFile(fs, nt, path.value);
    }
  }
}
