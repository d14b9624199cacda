/** The per-track logic of `play` in awp/simple.py: keys change the
    playing track's weight in the playlist at once, the volume scanner
    replaces its volume at once on each report, and after the track the
    playlist is written if anything made it dirty.

    Keyboard input is read one character at a time; it running out stands
    for the player exiting. The key loop and the scanner run concurrently
    and touch different fields of the same entry; the model runs the key
    loop first and the reports after it, which `UpdatesCommute` shows gives
    the same entries as the other order. */
module SimpleControl {
  import opened Wrappers
  import opened Errors
  import opened OrderedMaps
  import opened PlaylistFormat
  import opened Files
  import opened Playlists
  import opened VolumeScraper
  import PlayControl
  import Rand

  /** The playlist's entries and dirty flag, what was sent to the player,
      whether `Q` ended `play`, and the exception that ended the loop. */
  datatype KeysState = KeysState(entries: Entries, dirty: bool, sent: string, quit: bool, error: Option<Error>)

  /** The weight a command key stores: `q` and `d` halve, `f` doubles. */
  function KeyWeight(c: char, w: real): real {
    if c == 'f' then w * 2.0 else w / 2.0
  }

  /** The key loop from state `s` over the remaining keys. */
  function KeysSpec(s: KeysState, filename: Path, keys: string): (r: KeysState)
    requires s.entries.Valid()
    ensures r.entries.Valid()
    decreases |keys|
  {
    if s.quit || s.error.Some? || keys == [] then s
    else
      var c := keys[0];
      if c == 'q' || c == 'f' || c == 'd' then
        if filename !in s.entries.vals then KeysState(s.entries, s.dirty, s.sent, false, Some(NoSuchPath(filename)))
        else
          var e := s.entries.vals[filename];
          var m := s.entries.Put(filename, Entry(KeyWeight(c, e.weight), e.volume));
          KeysSpec(KeysState(m, true, s.sent + (if c == 'q' then " \n" else ""), false, None), filename, keys[1..])
      else if c == 'Q' then KeysState(s.entries, s.dirty, s.sent + "q", true, None)
      else KeysSpec(KeysState(s.entries, s.dirty, s.sent + [c], false, None), filename, keys[1..])
  }

  /** simple.py's key loop for the track `filename`. */
  method KeyLoop(p: Playlist, filename: Path, keys: string) returns (sent: string, quit: bool, err: Option<Error>)
    requires p.Valid()
    modifies p
    ensures p.Valid() && p.filepath == old(p.filepath)
    ensures err.Some? ==> !quit
    ensures KeysState(p.entries, p.dirty, sent, quit, err)
      == KeysSpec(KeysState(old(p.entries), old(p.dirty), [], false, None), filename, keys)
  {
    sent := [];
    var i := 0;
    assert keys[i..] == keys;
    while i < |keys|
      invariant 0 <= i <= |keys| && p.Valid() && p.filepath == old(p.filepath)
      invariant KeysSpec(KeysState(p.entries, p.dirty, sent, false, None), filename, keys[i..])
        == KeysSpec(KeysState(old(p.entries), old(p.dirty), [], false, None), filename, keys)
    {
      assert keys[i..][0] == keys[i] && keys[i..][1..] == keys[i + 1..];
      var c := keys[i];
      ghost var before := p.entries;
      if c == 'q' || c == 'f' || c == 'd' {
        assert filename in before.vals ==>
          Updated(before.vals[filename], MapWith(x => x / 2.0), Keep) == Entry(KeyWeight('q', before.vals[filename].weight), before.vals[filename].volume);
        assert filename in before.vals ==>
          Updated(before.vals[filename], MapWith(x => x * 2.0), Keep) == Entry(KeyWeight('f', before.vals[filename].weight), before.vals[filename].volume);
        assert sent + "" == sent;
      }
      if c == 'q' {
        err := p.Update(filename, MapWith(x => x / 2.0), Keep);
        if err.Some? {
          return sent, false, err;
        }
        sent := sent + " \n";
      } else if c == 'f' {
        err := p.Update(filename, MapWith(x => x * 2.0), Keep);
        if err.Some? {
          return sent, false, err;
        }
      } else if c == 'd' {
        err := p.Update(filename, MapWith(x => x / 2.0), Keep);
        if err.Some? {
          return sent, false, err;
        }
      } else if c == 'Q' {
        sent := sent + "q";
        return sent, true, None;
      } else {
        sent := sent + [c];
      }
      i := i + 1;
    }
    assert keys[i..] == [];
    return sent, false, None;
  }

  /** The entries and dirty flag after the scanner's reports, each an
      `update(filename, volume=v)`, and the exception that ended it. */
  datatype ReportsState = ReportsState(entries: Entries, dirty: bool, error: Option<Error>)

  function ReportsSpec(m: Entries, dirty: bool, filename: Path, reports: seq<real>): (r: ReportsState)
    requires m.Valid()
    ensures r.entries.Valid()
    decreases |reports|
  {
    if reports == [] then ReportsState(m, dirty, None)
    else if filename !in m.vals then ReportsState(m, dirty, Some(NoSuchPath(filename)))
    else ReportsSpec(m.Put(filename, Entry(m.vals[filename].weight, reports[0])), true, filename, reports[1..])
  }

  /** The updates simple.py's `out_reader` makes, one per complete report. */
  method ApplyReports(p: Playlist, filename: Path, reports: seq<real>) returns (err: Option<Error>)
    requires p.Valid()
    modifies p
    ensures p.Valid() && p.filepath == old(p.filepath)
    ensures ReportsState(p.entries, p.dirty, err) == ReportsSpec(old(p.entries), old(p.dirty), filename, reports)
  {
    var i := 0;
    assert reports[i..] == reports;
    while i < |reports|
      invariant 0 <= i <= |reports| && p.Valid() && p.filepath == old(p.filepath)
      invariant ReportsSpec(p.entries, p.dirty, filename, reports[i..]) == ReportsSpec(old(p.entries), old(p.dirty), filename, reports)
    {
      assert reports[i..][0] == reports[i] && reports[i..][1..] == reports[i + 1..];
      err := p.Update(filename, Keep, SetTo(reports[i]));
      if err.Some? {
        return;
      }
      i := i + 1;
    }
    assert reports[i..] == [];
    return None;
  }

  /** The keys before the first `Q`. */
  function BeforeQuit(keys: string): (r: string)
    ensures |r| <= |keys|
  {
    if keys == [] || keys[0] == 'Q' then [] else [keys[0]] + BeforeQuit(keys[1..])
  }

  /** `w` doubled `e` times, or halved `-e` times. */
  function Doubled(w: real, e: int): real
    decreases if e < 0 then -e else e
  {
    if e == 0 then w else if e > 0 then Doubled(w, e - 1) * 2.0 else Doubled(w, e + 1) / 2.0
  }

  lemma DoubledUp(w: real, e: int)
    ensures Doubled(w, e + 1) == Doubled(w, e) * 2.0
  {
    if e < 0 {
      assert Doubled(w, e) == Doubled(w, e + 1) / 2.0;
    }
  }

  lemma DoubledDown(w: real, e: int)
    ensures Doubled(w, e - 1) == Doubled(w, e) / 2.0
  {
    if e > 0 {
      assert Doubled(w, e) == Doubled(w, e - 1) * 2.0;
    }
  }

  lemma PutTwice(m: Entries, k: Path, a: Entry, b: Entry)
    requires m.Valid()
    ensures m.Put(k, a).Put(k, b) == m.Put(k, b)
  {
    assert m.vals[k := a][k := b] == m.vals[k := b];
  }

  lemma PutSame(m: Entries, k: Path)
    requires m.Valid() && k in m.vals
    ensures m.Put(k, m.vals[k]) == m
  {
    assert m.vals[k := m.vals[k]] == m.vals;
  }

  /** The key loop leaves the track with its weight doubled once per `f`
      and halved once per `q` or `d` before any `Q`, its volume and place
      unchanged, and every other entry as it was. */
  lemma {:induction false} KeysClosedForm(m: Entries, dirty: bool, sent: string, filename: Path, keys: string)
    requires m.Valid() && filename in m.vals
    ensures var r := KeysSpec(KeysState(m, dirty, sent, false, None), filename, keys);
      var w := m.vals[filename];
      && r.error == None
      && r.entries == m.Put(filename, Entry(Doubled(w.weight, PlayControl.Exponent(BeforeQuit(keys))), w.volume))
    decreases |keys|
  {
    var w := m.vals[filename];
    if keys == [] || keys[0] == 'Q' {
      PutSame(m, filename);
    } else {
      var c := keys[0];
      var rest := keys[1..];
      var k := PlayControl.KeyExponent(c);
      assert BeforeQuit(keys) == [c] + BeforeQuit(rest);
      assert PlayControl.Exponent([c] + BeforeQuit(rest)) == k + PlayControl.Exponent(BeforeQuit(rest)) by {
        assert ([c] + BeforeQuit(rest))[1..] == BeforeQuit(rest);
      }
      if c == 'q' || c == 'f' || c == 'd' {
        var m1 := m.Put(filename, Entry(KeyWeight(c, w.weight), w.volume));
        KeysClosedForm(m1, true, sent + (if c == 'q' then " \n" else ""), filename, rest);
        var x := PlayControl.Exponent(BeforeQuit(rest));
        KeyWeightDoubled(c, w.weight, x);
        PutTwice(m, filename, Entry(KeyWeight(c, w.weight), w.volume),
                 Entry(Doubled(KeyWeight(c, w.weight), x), w.volume));
      } else {
        KeysClosedForm(m, dirty, sent + [c], filename, rest);
      }
    }
  }

  /** Doubling or halving first and then `x` more times is `x + 1` or `x - 1` times. */
  lemma {:induction false} KeyWeightDoubled(c: char, w: real, x: int)
    requires c == 'q' || c == 'f' || c == 'd'
    ensures Doubled(KeyWeight(c, w), x) == Doubled(w, PlayControl.KeyExponent(c) + x)
    decreases if x < 0 then -x else x
  {
    if x == 0 {
      if c == 'f' {
        DoubledUp(w, 0);
      } else {
        DoubledDown(w, 0);
      }
    } else if x > 0 {
      KeyWeightDoubled(c, w, x - 1);
      DoubledUp(w, PlayControl.KeyExponent(c) + x - 1);
    } else {
      KeyWeightDoubled(c, w, x + 1);
      DoubledDown(w, PlayControl.KeyExponent(c) + x + 1);
    }
  }

  /** The reports leave the track with the last reported volume and its
      weight and place unchanged. */
  lemma {:induction false} ReportsClosedForm(m: Entries, dirty: bool, filename: Path, reports: seq<real>)
    requires m.Valid() && filename in m.vals
    ensures var r := ReportsSpec(m, dirty, filename, reports);
      var w := m.vals[filename];
      && r.error == None
      && r.dirty == (dirty || reports != [])
      && r.entries == m.Put(filename, Entry(w.weight, LastReport(reports).GetOr(w.volume)))
    decreases |reports|
  {
    var w := m.vals[filename];
    if reports == [] {
      PutSame(m, filename);
    } else {
      var m1 := m.Put(filename, Entry(w.weight, reports[0]));
      ReportsClosedForm(m1, true, filename, reports[1..]);
      PutTwice(m, filename, Entry(w.weight, reports[0]), Entry(w.weight, LastReport(reports[1..]).GetOr(reports[0])));
      assert LastReport(reports[1..]).GetOr(reports[0]) == LastReport(reports).GetOr(w.volume);
    }
  }

  /** The key loop's weight updates and the scanner's volume updates touch
      different fields, so either order leaves the same entries. */
  lemma UpdatesCommute(m: Entries, dirty: bool, filename: Path, keys: string, reports: seq<real>)
    requires m.Valid() && filename in m.vals
    ensures var k := KeysSpec(KeysState(m, dirty, [], false, None), filename, keys);
      var r := ReportsSpec(m, dirty, filename, reports);
      && filename in k.entries.vals && filename in r.entries.vals
      && ReportsSpec(k.entries, k.dirty, filename, reports).entries
         == KeysSpec(KeysState(r.entries, r.dirty, [], false, None), filename, keys).entries
  {
    var w := m.vals[filename];
    var W := Doubled(w.weight, PlayControl.Exponent(BeforeQuit(keys)));
    var V := LastReport(reports).GetOr(w.volume);
    KeysClosedForm(m, dirty, [], filename, keys);
    ReportsClosedForm(m, dirty, filename, reports);
    var k := KeysSpec(KeysState(m, dirty, [], false, None), filename, keys);
    var r := ReportsSpec(m, dirty, filename, reports);
    ReportsClosedForm(k.entries, k.dirty, filename, reports);
    PutTwice(m, filename, Entry(W, w.volume), Entry(W, V));
    KeysClosedForm(r.entries, r.dirty, [], filename, keys);
    PutTwice(m, filename, Entry(w.weight, V), Entry(W, V));
  }

  /** `f` then `d` leaves the weight as it was. */
  lemma PromoteThenDemote(m: Entries, filename: Path)
    requires m.Valid() && filename in m.vals
    ensures KeysSpec(KeysState(m, false, [], false, None), filename, "fd").entries == m
  {
    var keys := "fd";
    assert keys[0] == 'f' && keys[1..] == "d";
    assert "d"[0] == 'd' && "d"[1..] == [];
    assert BeforeQuit("d") == "d";
    assert BeforeQuit(keys) == keys;
    assert PlayControl.Exponent("d") == -1;
    assert PlayControl.Exponent(keys) == 0;
    KeysClosedForm(m, false, [], filename, keys);
    PutSame(m, filename);
  }

  /** One iteration of `for filename, volume in playlist`: a fresh draw
      from the playlist as it now is, the key loop and the reports updating
      it in place, then `if playlist.dirty: playlist.writefile()`, which a
      `Q` skips. An exception in the scanner ends only its greenlet. */
  method PlayTrack(fs: FileSystem, nt: NumberText, st: Settings, p: Playlist, order: seq<Path>, x: real,
                   childOut: string, keys: string)
    returns (quit: bool, echo: string, sent: string, err: Option<Error>)
    requires p.Valid()
    requires |order| == |p.entries.keys| && Distinct(order) && forall k :: k in order <==> k in p.entries.vals
    modifies fs, p
    ensures p.Valid() && p.filepath == old(p.filepath)
    ensures var d := ChoiceTable(old(p.entries), order);
      var choice := Rand.KeyAt(d, Rand.Choose(d, x));
      if choice.None? then
        err == Some(EmptySelection) && fs.files == old(fs.files) && p.entries == old(p.entries) && !quit
      else
        var filename := choice.value.0;
        var k := KeysSpec(KeysState(old(p.entries), old(p.dirty), [], false, None), filename, keys);
        var scan := OutReaderSpec(nt, st, childOut);
        var r := ReportsSpec(k.entries, k.dirty, filename, scan.reports);
        && echo == scan.echo && sent == k.sent && quit == k.quit
        && p.entries == (if k.error.Some? then k.entries else r.entries)
        && (quit || k.error.Some? || !r.dirty ==> fs.files == old(fs.files))
        && (quit ==> err == None)
        && (k.error.Some? ==> err == k.error)
        && (!quit && k.error.None? && r.dirty ==>
              if Given(p.filepath) then
                && err == None && !p.dirty
                && fs.files == (old(fs.files) - {TempPath(p.filepath.value)})[p.filepath.value := Serialize(nt, p.entries)]
              else err == Some(NoFilepath) && fs.files == old(fs.files))
  {
    var choice := p.Next(order, x);
    if choice.None? {
      return false, [], [], Some(EmptySelection);
    }
    var filename := choice.value.0;
    var scan := OutReader(nt, st, childOut);
    echo := scan.echo;
    var keyErr;
    sent, quit, keyErr := KeyLoop(p, filename, keys);
    if keyErr.Some? {
      return quit, echo, sent, keyErr;
    }
    var reportErr := ApplyReports(p, filename, scan.reports);
    if quit || !p.dirty {
      return quit, echo, sent, None;
    }
    err := p.WriteFile(fs, nt, None, true);
  }
}
