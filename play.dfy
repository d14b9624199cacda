/** The per-track logic of `play` in awp/play.py: the keystroke loop that
    turns `q`, `f` and `d` into a weight multiplier and forwards everything
    else to the player, and the update that reloads the playlist file after
    the track and persists the multiplier and the last reported volume.

    Keyboard input is a sequence of bursts: each burst is the text that is
    available at once (what `select` with a zero timeout sees before it
    reports nothing more). The input running out stands for the player
    exiting, which ends the key loop with `RaiseOnExit.ChildExited`. */
module PlayControl {
  import opened Wrappers
  import opened Errors
  import opened OrderedMaps
  import opened Text
  import opened PlaylistFormat
  import opened Files
  import opened Playlists
  import opened VolumeScraper
  import Rand

  /** Every burst holds at least the character `read_stdin` returned. */
  predicate Bursts(keys: seq<string>) {
    forall i :: 0 <= i < |keys| ==> keys[i] != []
  }

  function Size(keys: seq<string>): nat {
    if keys == [] then 0 else |keys[0]| + Size(keys[1..])
  }

  /** The key loop's variables: `weight_change`, what it wrote to the
      player's stdin, and whether it returned from `play` (key `Q`). */
  datatype KeyState = KeyState(weightChange: real, sent: string, quit: bool)

  /** The input after `read_stdin` took the first character of the first burst. */
  function AfterOne(keys: seq<string>): (r: seq<string>)
    requires keys != [] && keys[0] != []
    ensures Bursts(keys) ==> Bursts(r)
    ensures Size(r) < Size(keys)
  {
    if |keys[0]| > 1 then [keys[0][1..]] + keys[1..] else keys[1..]
  }

  /** The key loop from state `s` over the remaining input `keys`. */
  function KeyLoopSpec(s: KeyState, keys: seq<string>): KeyState
    requires Bursts(keys)
    decreases Size(keys)
  {
    if s.quit || keys == [] then s
    else
      var c := keys[0][0];
      if c == 'q' then KeyLoopSpec(KeyState(s.weightChange * 0.5, s.sent + "q", false), AfterOne(keys))
      else if c == 'f' then KeyLoopSpec(KeyState(s.weightChange * 2.0, s.sent, false), AfterOne(keys))
      else if c == 'd' then KeyLoopSpec(KeyState(s.weightChange * 0.5, s.sent, false), AfterOne(keys))
      else if c == 'Q' then KeyState(s.weightChange, s.sent + "q", true)
      else KeyLoopSpec(KeyState(s.weightChange, s.sent + keys[0], false), keys[1..])
  }

  /** The key loop of one track, which starts with `weight_change = 1`. */
  method KeyLoop(keys: seq<string>) returns (r: KeyState)
    requires Bursts(keys)
    ensures r == KeyLoopSpec(KeyState(1.0, [], false), keys)
  {
    var weightChange := 1.0;
    var sent: string := [];
    var pending := keys;
    while pending != []
      invariant Bursts(pending)
      invariant KeyLoopSpec(KeyState(weightChange, sent, false), pending) == KeyLoopSpec(KeyState(1.0, [], false), keys)
      decreases Size(pending)
    {
      var c := pending[0][0];
      if c == 'q' {
        weightChange := weightChange * 0.5;
        sent := sent + "q";
        pending := AfterOne(pending);
      } else if c == 'f' {
        weightChange := weightChange * 2.0;
        pending := AfterOne(pending);
      } else if c == 'd' {
        weightChange := weightChange * 0.5;
        pending := AfterOne(pending);
      } else if c == 'Q' {
        sent := sent + "q";
        return KeyState(weightChange, sent, true);
      } else {
        // An escape must reach the player whole: the rest of the burst goes too.
        sent := sent + pending[0];
        pending := pending[1..];
      }
    }
    return KeyState(weightChange, sent, false);
  }

  /** The keys the loop interprets as commands, in order, up to a `Q`;
      characters sent along with another key are not among them. */
  function Interpreted(keys: seq<string>): (r: string)
    requires Bursts(keys)
    decreases Size(keys)
  {
    if keys == [] then []
    else
      var c := keys[0][0];
      if c == 'q' || c == 'f' || c == 'd' then [c] + Interpreted(AfterOne(keys))
      else if c == 'Q' then []
      else Interpreted(keys[1..])
  }

  /** `2^e` */
  function Pow2(e: int): (r: real)
    ensures r > 0.0
    decreases if e < 0 then -e else e
  {
    if e == 0 then 1.0 else if e > 0 then 2.0 * Pow2(e - 1) else 0.5 * Pow2(e + 1)
  }

  lemma Pow2Up(e: int)
    ensures Pow2(e + 1) == 2.0 * Pow2(e)
  {
    if e < 0 {
      assert Pow2(e) == 0.5 * Pow2(e + 1);
    }
  }

  lemma Pow2Down(e: int)
    ensures Pow2(e - 1) == 0.5 * Pow2(e)
  {
    if e > 0 {
      assert Pow2(e) == 2.0 * Pow2(e - 1);
    }
  }

  /** `2^e` is 1 only for `e = 0`: below it is at most 1/2, above at least 2. */
  lemma {:induction false} Pow2IsOne(e: int)
    ensures e > 0 ==> Pow2(e) >= 2.0
    ensures e < 0 ==> Pow2(e) <= 0.5
    ensures Pow2(e) == 1.0 <==> e == 0
    decreases if e < 0 then -e else e
  {
    if e > 1 {
      Pow2IsOne(e - 1);
    } else if e < -1 {
      Pow2IsOne(e + 1);
    }
  }

  /** The exponent a key's factor contributes: `f` doubles, `q` and `d` halve. */
  function KeyExponent(c: char): int {
    if c == 'f' then 1 else if c == 'q' || c == 'd' then -1 else 0
  }

  function Exponent(keys: string): int {
    if keys == [] then 0 else KeyExponent(keys[0]) + Exponent(keys[1..])
  }

  /** The product of the per-key factors. */
  function Factor(keys: string): real {
    if keys == [] then 1.0
    else (if keys[0] == 'f' then 2.0 else if keys[0] == 'q' || keys[0] == 'd' then 0.5 else 1.0) * Factor(keys[1..])
  }

  lemma {:induction false} FactorIsPow2(keys: string)
    ensures Factor(keys) == Pow2(Exponent(keys))
  {
    if keys != [] {
      FactorIsPow2(keys[1..]);
      var e := Exponent(keys[1..]);
      Pow2Up(e);
      Pow2Down(e);
    }
  }

  lemma {:induction false} KeyLoopWeight(e: int, sent: string, keys: seq<string>)
    requires Bursts(keys)
    ensures KeyLoopSpec(KeyState(Pow2(e), sent, false), keys).weightChange == Pow2(e + Exponent(Interpreted(keys)))
    decreases Size(keys)
  {
    if keys != [] {
      var c := keys[0][0];
      if c == 'q' || c == 'f' || c == 'd' {
        var rest := AfterOne(keys);
        var e2 := e + KeyExponent(c);
        Pow2Up(e);
        Pow2Down(e);
        KeyLoopWeight(e2, if c == 'q' then sent + "q" else sent, rest);
        assert Interpreted(keys) == [c] + Interpreted(rest);
        assert Exponent([c] + Interpreted(rest)) == KeyExponent(c) + Exponent(Interpreted(rest)) by {
          assert ([c] + Interpreted(rest))[1..] == Interpreted(rest);
        }
      } else if c != 'Q' {
        KeyLoopWeight(e, sent + keys[0], keys[1..]);
      }
    }
  }

  /** `weight_change` at the end of a track is the product of the factors of
      the keys the loop interpreted. */
  lemma WeightChangeIsProduct(keys: seq<string>)
    requires Bursts(keys)
    ensures KeyLoopSpec(KeyState(1.0, [], false), keys).weightChange == Factor(Interpreted(keys))
  {
    KeyLoopWeight(0, [], keys);
    FactorIsPow2(Interpreted(keys));
  }

  /** Characters read ahead with a key other than `q`, `f`, `d` and `Q` are
      sent with it and never interpreted: `xf` forwards both and changes nothing. */
  lemma ReadAheadNotInterpreted(s: KeyState, b: string, rest: seq<string>)
    requires b != [] && b[0] !in "qfdQ" && Bursts(rest) && !s.quit
    ensures Bursts([b] + rest)
    ensures KeyLoopSpec(s, [b] + rest) == KeyLoopSpec(KeyState(s.weightChange, s.sent + b, false), rest)
    ensures Interpreted([b] + rest) == Interpreted(rest)
    ensures KeyLoopSpec(KeyState(1.0, [], false), ["xf"]) == KeyState(1.0, "xf", false)
  {
    assert ([b] + rest)[1..] == rest;
    assert (["xf"])[1..] == [];
  }

  /** `Q` sends `q` and ends the loop; nothing after it is read. */
  lemma QuitStops(s: KeyState, b: string, rest: seq<string>)
    requires b != [] && b[0] == 'Q' && Bursts(rest) && !s.quit
    ensures Bursts([b] + rest)
    ensures KeyLoopSpec(s, [b] + rest) == KeyState(s.weightChange, s.sent + "q", true)
  {
  }

  /** `x * weight_change`, the weight the update stores. */
  function Times(x: real, factor: real): real {
    x * factor
  }

  /** What the post-track update leaves: the file store, the reloaded
      playlist's entries, and the exception, if any. */
  datatype AfterTrack = AfterTrack(files: map<string, string>, entries: Entries, error: Option<Error>)

  /** Reload the playlist from `filepath`; if `weight_change != 1` or a
      volume was reported, multiply the track's weight, replace its volume
      when one was reported, and write the file atomically. */
  function PostTrackSpec(files: map<string, string>, nt: NumberText, filepath: Option<string>,
                         filename: Path, weightChange: real, newVolume: Option<real>): AfterTrack
  {
    var loaded := if Given(filepath) then LoadedEntries(files, nt, filepath.value) else Ok(Empty());
    if loaded.Err? then AfterTrack(files, Empty(), Some(loaded.error))
    else
      var m := loaded.value;
      if weightChange == 1.0 && newVolume.None? then AfterTrack(files, m, None)
      else if filename !in m.vals || !Given(filepath) then AfterTrack(files, m, Some(NoSuchPath(filename)))
      else
        var e := m.vals[filename];
        var updated := m.Put(filename, Entry(Times(e.weight, weightChange), newVolume.GetOr(e.volume)));
        var target := filepath.value;
        AfterTrack((files - {TempPath(target)})[target := Serialize(nt, updated)], updated, None)
  }

  /** `playlist = ptype(playlist.filepath)` and the conditional
      `update`/`writefile` after a track. */
  method PostTrack(fs: FileSystem, nt: NumberText, filepath: Option<string>, filename: Path,
                   weightChange: real, newVolume: Option<real>) returns (p: Playlist, err: Option<Error>)
    modifies fs
    ensures fresh(p) && p.Valid()
    ensures var r := PostTrackSpec(old(fs.files), nt, filepath, filename, weightChange, newVolume);
      fs.files == r.files && err == r.error && (err.None? ==> p.entries == r.entries)
  {
    var loadErr;
    p, loadErr := Open(fs, nt, filepath);
    if loadErr.Some? {
      return p, loadErr;
    }
    assert p.entries == (if Given(filepath) then LoadedEntries(fs.files, nt, filepath.value) else Ok(Empty())).value;
    if weightChange == 1.0 && newVolume.None? {
      return p, None;
    }
    err := UpdateAndWrite(fs, nt, p, filename, weightChange, newVolume);
  }

  /** The `update` and `writefile` of the reloaded playlist. */
  method UpdateAndWrite(fs: FileSystem, nt: NumberText, p: Playlist, filename: Path,
                        weightChange: real, newVolume: Option<real>) returns (err: Option<Error>)
    requires p.Valid()
    modifies fs, p
    ensures p.Valid()
    ensures filename !in old(p.entries.vals) ==> err == Some(NoSuchPath(filename)) && fs.files == old(fs.files)
    ensures filename in old(p.entries.vals) ==>
      var e := old(p.entries.vals[filename]);
      var updated := old(p.entries).Put(filename, Entry(Times(e.weight, weightChange), newVolume.GetOr(e.volume)));
      && p.entries == updated
      && if Given(old(p.filepath)) then
           err == None && fs.files == (old(fs.files) - {TempPath(old(p.filepath).value)})[old(p.filepath).value := Serialize(nt, updated)]
         else err == Some(NoFilepath) && fs.files == old(fs.files)
  {
    err := p.Update(filename, MapWith(x => Times(x, weightChange)), Replacement(newVolume));
    if err.Some? {
      return;
    }
    err := p.WriteFile(fs, nt, None, true);
  }

  /** A track with no weight change and no volume report writes nothing. */
  lemma UnchangedTrackWritesNothing(files: map<string, string>, nt: NumberText, filepath: Option<string>,
                                    filename: Path)
    ensures PostTrackSpec(files, nt, filepath, filename, 1.0, None).files == files
  {
  }

  /** After a persisted update, reading the file back gives the reloaded
      entries with only the played track's entry changed, in the same order. */
  lemma PersistedUpdateReloads(files: map<string, string>, nt: NumberText, filepath: Option<string>,
                               filename: Path, weightChange: real, newVolume: Option<real>)
    requires Given(filepath) && LoadedEntries(files, nt, filepath.value).Ok?
    requires filename in LoadedEntries(files, nt, filepath.value).value.vals
    requires var m := LoadedEntries(files, nt, filepath.value).value;
      forall k :: k in m.vals && k != filename ==> EntryOk(nt, m.vals[k])
    requires var e := LoadedEntries(files, nt, filepath.value).value.vals[filename];
      EntryOk(nt, Entry(Times(e.weight, weightChange), newVolume.GetOr(e.volume)))
    requires weightChange != 1.0 || newVolume.Some?
    ensures PostTrackSpec(files, nt, filepath, filename, weightChange, newVolume).error == None
    ensures var r := PostTrackSpec(files, nt, filepath, filename, weightChange, newVolume);
      LoadedEntries(r.files, nt, filepath.value) == Ok(r.entries)
    ensures var r := PostTrackSpec(files, nt, filepath, filename, weightChange, newVolume);
      var m := LoadedEntries(files, nt, filepath.value).value;
      && r.entries.keys == m.keys
      && r.entries.Get(filename) == Some(Entry(Times(m.vals[filename].weight, weightChange), newVolume.GetOr(m.vals[filename].volume)))
      && forall k :: k != filename ==> r.entries.Get(k) == m.Get(k)
  {
    var target := filepath.value;
    var m := LoadedEntries(files, nt, target).value;
    var e := m.vals[filename];
    var updated := m.Put(filename, Entry(Times(e.weight, weightChange), newVolume.GetOr(e.volume)));
    var written := (files - {TempPath(target)})[target := Serialize(nt, updated)];
    assert PostTrackSpec(files, nt, filepath, filename, weightChange, newVolume) == AfterTrack(written, updated, None);
    LoadedPathsHaveNoNewline(nt, files, target);
    assert forall k :: k in updated.vals ==> k in m.vals && EntryOk(nt, updated.vals[k]);
    ReloadSaved(written, nt, target, updated);
  }

  /** One pass of `play`'s `while True` loop: draw a track, scan the
      player's output and run the key loop (both until the player exits),
      then, unless `Q` ended `play`, reload, update and write the playlist.
      An exception in the scanner ends only its greenlet: the reports made
      before it still count. `order` is the iteration order of the dict
      `next` builds and `x` the scaled random draw. */
  method PlayTrack(fs: FileSystem, nt: NumberText, st: Settings, p: Playlist, order: seq<Path>, x: real,
                   childOut: string, keys: seq<string>)
    returns (next: Playlist, quit: bool, echo: string, sent: string, err: Option<Error>)
    requires p.Valid() && Bursts(keys)
    requires |order| == |p.entries.keys| && Distinct(order) && forall k :: k in order <==> k in p.entries.vals
    modifies fs
    ensures next.Valid()
    ensures var d := ChoiceTable(p.entries, order);
      var choice := Rand.KeyAt(d, Rand.Choose(d, x));
      if choice.None? then
        err == Some(EmptySelection) && fs.files == old(fs.files) && !quit && next == p
      else
        var k := KeyLoopSpec(KeyState(1.0, [], false), keys);
        var scan := OutReaderSpec(nt, st, childOut);
        && echo == scan.echo && sent == k.sent && quit == k.quit
        && (quit ==> fs.files == old(fs.files) && err == None && next == p)
        && (!quit ==>
              var a := PostTrackSpec(old(fs.files), nt, p.filepath, choice.value.0, k.weightChange, LastReport(scan.reports));
              fs.files == a.files && err == a.error && (err.None? ==> next.entries == a.entries))
  {
    var choice := p.Next(order, x);
    if choice.None? {
      return p, false, [], [], Some(EmptySelection);
    }
    var filename := choice.value.0;
    var scan := OutReader(nt, st, childOut);
    var k := KeyLoop(keys);
    echo, sent, quit := scan.echo, k.sent, k.quit;
    if quit {
      return p, quit, echo, sent, None;
    }
    next, err := PostTrack(fs, nt, p.filepath, filename, k.weightChange, LastReport(scan.reports));
  }
}
