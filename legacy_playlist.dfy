/** The older playlist store in the repository's top-level playlist.py: the
    same file grammar, no dirty flag and no remembered file name. Its
    `add_item` warns on a repeated path through `format_entry`, which is a
    classmethod declared without `cls`, so the call has one argument too
    many and raises TypeError before the entry is stored: loading a file
    that repeats a path, or loading a path already present, fails. */
module LegacyPlaylists {
  import opened Wrappers
  import opened Errors
  import opened Text
  import opened OrderedMaps
  import opened PlaylistFormat
  import opened Files
  import opened Playlists
  import Rand

  /** The entries and the exception after legacy `readfile`'s loop. */
  datatype Loaded = Loaded(entries: Entries, error: Option<Error>)

  /** Legacy `readfile` over `lines` into `m`: each parsed record goes
      through `add_item(warn=True)`, which raises on a path already present. */
  function LegacyLoad(nt: NumberText, m: Entries, lines: seq<string>): (r: Loaded)
    requires m.Valid()
    ensures r.entries.Valid()
    decreases |lines|
  {
    if lines == [] then Loaded(m, None)
    else
      match ParseLine(nt, lines[0])
      case Err(e) => Loaded(m, Some(e))
      case Ok(None) => LegacyLoad(nt, m, lines[1..])
      case Ok(Some(rec)) =>
        if rec.path in m.vals then Loaded(m, Some(FormatEntryArity))
        else LegacyLoad(nt, m.Put(rec.path, rec.entry), lines[1..])
  }

  lemma LegacyLoadStep(nt: NumberText, m: Entries, lines: seq<string>, i: nat)
    requires m.Valid() && i < |lines|
    ensures var parsed := ParseLine(nt, lines[i]);
      LegacyLoad(nt, m, lines[i..]) ==
        if parsed.Err? then Loaded(m, Some(parsed.error))
        else if parsed.value.None? then LegacyLoad(nt, m, lines[i + 1..])
        else if parsed.value.value.path in m.vals then Loaded(m, Some(FormatEntryArity))
        else LegacyLoad(nt, m.Put(parsed.value.value.path, parsed.value.value.entry), lines[i + 1..])
  {
    assert lines[i..][0] == lines[i] && lines[i..][1..] == lines[i + 1..];
  }

  /** Every record's path is new: absent from `m` and from the records before it. */
  predicate FreshPaths(m: Entries, rs: seq<Record>) {
    forall i :: 0 <= i < |rs| ==> rs[i].path !in m.vals && forall j :: 0 <= j < i ==> rs[j].path != rs[i].path
  }

  lemma FreshPathsCons(m: Entries, rec: Record, rs: seq<Record>)
    requires m.Valid()
    ensures FreshPaths(m, [rec] + rs) <==> rec.path !in m.vals && FreshPaths(m.Put(rec.path, rec.entry), rs)
  {
    var all := [rec] + rs;
    var m1 := m.Put(rec.path, rec.entry);
    assert forall i :: 0 < i < |all| ==> all[i] == rs[i - 1];
    if FreshPaths(m, all) {
      forall i | 0 <= i < |rs| ensures rs[i].path !in m1.vals && forall j :: 0 <= j < i ==> rs[j].path != rs[i].path {
        assert all[i + 1] == rs[i] && all[0] == rec;
        forall j | 0 <= j < i ensures rs[j].path != rs[i].path {
          assert all[j + 1] == rs[j];
        }
      }
    }
    if rec.path !in m.vals && FreshPaths(m1, rs) {
      forall i | 0 <= i < |all| ensures all[i].path !in m.vals && forall j :: 0 <= j < i ==> all[j].path != all[i].path {
        if i > 0 {
          assert all[i] == rs[i - 1];
          assert rs[i - 1].path !in m1.vals;
          forall j | 0 <= j < i ensures all[j].path != all[i].path {
            if j > 0 {
              assert all[j] == rs[j - 1];
            }
          }
        }
      }
    }
  }

  /** The legacy load succeeds exactly when the packaged grammar reads the
      lines without error and no path repeats or is already present; it
      then stores what the packaged load stores. */
  lemma {:induction false} LegacyLoadAgrees(nt: NumberText, m: Entries, lines: seq<string>)
    requires m.Valid()
    ensures var p := ParseLines(nt, lines);
      LegacyLoad(nt, m, lines).error == None <==> p.error == None && FreshPaths(m, p.records)
    ensures var p := ParseLines(nt, lines);
      LegacyLoad(nt, m, lines).error == None ==> LegacyLoad(nt, m, lines).entries == PutRecords(m, p.records)
    decreases |lines|
  {
    if lines != [] {
      match ParseLine(nt, lines[0]) {
        case Err(e) =>
        case Ok(None) =>
          LegacyLoadAgrees(nt, m, lines[1..]);
        case Ok(Some(rec)) =>
          var rest := ParseLines(nt, lines[1..]);
          FreshPathsCons(m, rec, rest.records);
          PutRecordsCons(m, rec, rest.records);
          if rec.path !in m.vals {
            LegacyLoadAgrees(nt, m.Put(rec.path, rec.entry), lines[1..]);
          }
      }
    }
  }

  /** Two records for the same path: the packaged load keeps the second
      value, the legacy load raises TypeError on it and keeps the first. */
  lemma RepeatedPathRaises(nt: NumberText, line1: string, line2: string, path: Path, e1: Entry, e2: Entry)
    requires ParseLine(nt, line1) == Ok(Some(Record(path, e1)))
    requires ParseLine(nt, line2) == Ok(Some(Record(path, e2)))
    ensures LegacyLoad(nt, Empty(), [line1, line2]) == Loaded(Empty().Put(path, e1), Some(FormatEntryArity))
    ensures PutRecords(Empty(), ParseLines(nt, [line1, line2]).records) == Empty().Put(path, e2)
  {
    LegacyRepeat(nt, line1, line2, path, e1, e2);
    PackagedRepeat(nt, line1, line2, path, e1, e2);
  }

  lemma LegacyRepeat(nt: NumberText, line1: string, line2: string, path: Path, e1: Entry, e2: Entry)
    requires ParseLine(nt, line1) == Ok(Some(Record(path, e1)))
    requires ParseLine(nt, line2) == Ok(Some(Record(path, e2)))
    ensures LegacyLoad(nt, Empty(), [line1, line2]) == Loaded(Empty().Put(path, e1), Some(FormatEntryArity))
  {
    var lines := [line1, line2];
    var m0: Entries := Empty();
    var m1 := m0.Put(path, e1);
    LegacyLoadStep(nt, m0, lines, 0);
    LegacyLoadStep(nt, m1, lines, 1);
    assert lines[0..] == lines;
  }

  lemma PackagedRepeat(nt: NumberText, line1: string, line2: string, path: Path, e1: Entry, e2: Entry)
    requires ParseLine(nt, line1) == Ok(Some(Record(path, e1)))
    requires ParseLine(nt, line2) == Ok(Some(Record(path, e2)))
    ensures PutRecords(Empty(), ParseLines(nt, [line1, line2]).records) == Empty().Put(path, e2)
  {
    ParseTwoRecords(nt, line1, line2, Record(path, e1), Record(path, e2));
    OverwriteRecords(path, e1, e2);
  }

  lemma ParseTwoRecords(nt: NumberText, line1: string, line2: string, r1: Record, r2: Record)
    requires ParseLine(nt, line1) == Ok(Some(r1)) && ParseLine(nt, line2) == Ok(Some(r2))
    ensures ParseLines(nt, [line1, line2]) == Parsed([r1, r2], None)
  {
    ParseRecordCons(nt, line2, [], r2);
    ParseRecordCons(nt, line1, [line2] + [], r1);
    TwoAsCons(line1, line2);
    TwoAsCons(r1, r2);
  }

  lemma TwoAsCons<T>(a: T, b: T)
    ensures [a, b] == [a] + ([b] + [])
  {
  }

  lemma OverwriteRecords(path: Path, e1: Entry, e2: Entry)
    ensures PutRecords(Empty(), [Record(path, e1), Record(path, e2)]) == Empty().Put(path, e2)
  {
    var m0: Entries := Empty();
    var m1 := m0.Put(path, e1);
    var rs := [Record(path, e1), Record(path, e2)];
    assert rs == [rs[0]] + [rs[1]];
    PutRecordsCons(m0, rs[0], [rs[1]]);
    assert [rs[1]] == [rs[1]] + [];
    PutRecordsCons(m1, rs[1], []);
    assert m1.Put(path, e2) == m0.Put(path, e2) by {
      assert m1.vals[path := e2] == m0.vals[path := e2];
    }
  }

  class LegacyPlaylist {
    var entries: Entries

    ghost predicate Valid()
      reads this
    {
      entries.Valid()
    }

    /** `Playlist()` with no file: empty. */
    constructor()
      ensures Valid() && entries == Empty()
    {
      entries := Empty();
    }

    /** `add_item(path, weight, volume, warn)`: with `warn` a path already
        present raises TypeError and nothing is stored; otherwise an
        existing path keeps its place and a new one goes last. */
    method AddItem(path: Path, weight: real, volume: real, warn: bool) returns (err: Option<Error>)
      requires Valid()
      modifies this
      ensures Valid()
      ensures err.Some? <==> warn && path in old(entries.vals)
      ensures err.Some? ==> err == Some(FormatEntryArity) && entries == old(entries)
      ensures err.None? ==> entries == old(entries).Put(path, Entry(weight, volume))
    {
      if warn && path in entries.vals {
        return Some(FormatEntryArity);
      }
      entries := entries.Put(path, Entry(weight, volume));
      return None;
    }

    /** `readfile(path)`: appends the file's records; a bad line or a
        repeated path stops the load with the records before it stored. */
    method ReadFile(fs: FileSystem, nt: NumberText, path: string) returns (err: Option<Error>)
      requires Valid()
      ensures Valid()
      modifies this
      ensures path !in fs.files ==> err == Some(NoSuchFile(path)) && entries == old(entries)
      ensures path in fs.files ==>
        var r := LegacyLoad(nt, old(entries), Lines(fs.files[path]));
        err == r.error && entries == r.entries
    {
      var text := fs.Read(path);
      if text.None? {
        return Some(NoSuchFile(path));
      }
      err := AddLines(nt, Lines(text.value));
    }

    /** readfile's loop over the lines of the file. */
    method AddLines(nt: NumberText, lines: seq<string>) returns (err: Option<Error>)
      requires Valid()
      modifies this
      ensures Valid()
      ensures var r := LegacyLoad(nt, old(entries), lines);
        err == r.error && entries == r.entries
    {
      var i := 0;
      assert lines[i..] == lines;
      while i < |lines|
        invariant 0 <= i <= |lines| && Valid()
        invariant LegacyLoad(nt, entries, lines[i..]) == LegacyLoad(nt, old(entries), lines)
      {
        LegacyLoadStep(nt, entries, lines, i);
        var parsed := ParseLine(nt, lines[i]);
        match parsed {
          case Err(e) =>
            return Some(e);
          case Ok(None) =>
          case Ok(Some(rec)) =>
            err := AddItem(rec.path, rec.entry.weight, rec.entry.volume, true);
            if err.Some? {
              return;
            }
        }
        i := i + 1;
      }
      assert lines[i..] == [];
      return None;
    }

    /** `update(path, weight, volume)`: KeyError for an unknown path;
        otherwise each given value replaces the old one, in place. */
    method Update(path: Path, weight: Option<real>, volume: Option<real>) returns (err: Option<Error>)
      requires Valid()
      modifies this
      ensures Valid()
      ensures path !in old(entries.vals) ==> err == Some(NoSuchPath(path)) && entries == old(entries)
      ensures path in old(entries.vals) ==>
        var e := old(entries.vals[path]);
        && err == None
        && entries == old(entries).Put(path, Entry(weight.GetOr(e.weight), volume.GetOr(e.volume)))
        && entries.keys == old(entries.keys)
        && Updated(e, Replacement(weight), Replacement(volume)) == entries.vals[path]
    {
      var current := entries.Get(path);
      if current.None? {
        return Some(NoSuchPath(path));
      }
      var w := if weight.None? then current.value.weight else weight.value;
      var v := if volume.None? then current.value.volume else volume.value;
      err := AddItem(path, w, v, false);
    }

    /** `next()`: a weighted draw over (path, volume) keys, as in the
        packaged store; `order` is the dict's iteration order and `x` the
        scaled draw. */
    method Next(order: seq<Path>, x: real) returns (r: Option<(Path, real)>)
      requires Valid()
      requires |order| == |entries.keys| && Distinct(order) && forall k :: k in order <==> k in entries.vals
      ensures var d := ChoiceTable(entries, order);
        r == Rand.KeyAt(d, Rand.Choose(d, x))
      ensures r.Some? ==> r.value.0 in entries.vals && r.value.1 == entries.vals[r.value.0].volume
      ensures entries.keys == [] ==> r == None
    {
      var d := ChoiceTable(entries, order);
      r := Rand.WeightedChoice(d, x);
      if entries.keys == [] {
        assert order == [];
      }
    }
  }

  /** `Playlist(filepath)`: a non-empty name loads that file. */
  method OpenLegacy(fs: FileSystem, nt: NumberText, filepath: Option<string>) returns (p: LegacyPlaylist, err: Option<Error>)
    ensures fresh(p) && p.Valid()
    ensures !Given(filepath) ==> err == None && p.entries == Empty()
    ensures Given(filepath) && filepath.value !in fs.files ==> err == Some(NoSuchFile(filepath.value)) && p.entries == Empty()
    ensures Given(filepath) && filepath.value in fs.files ==>
      var r := LegacyLoad(nt, Empty(), Lines(fs.files[filepath.value]));
      err == r.error && p.entries == r.entries
  {
    p := new LegacyPlaylist();
    err := None;
    if Given(filepath) {
      err := p.ReadFile(fs, nt, filepath.value);
    }
  }
}
