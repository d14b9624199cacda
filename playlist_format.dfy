/** The playlist file format of awp/playlist.py and playlist.py: one record
    per line, `WEIGHT \t PATH` (volume 1) or `WEIGHT \t VOLUME \t PATH`, blank
    lines and `#` comments skipped; written back always in the three-field
    form. Number text is abstract: `NumberText` stands for `float()` and for
    `'{}'.format` of a float. */
module PlaylistFormat {
  import opened Wrappers
  import opened Errors
  import opened Text
  import opened OrderedMaps

  type Path = string

  /** The `(weight, volume)` pair stored for a path. */
  datatype Entry = Entry(weight: real, volume: real)

  type Entries = OrderedMap<Path, Entry>

  /** One parsed line: what `readfile` hands to `add_item`. */
  datatype Record = Record(path: Path, entry: Entry)

  /** `float(text)` (None where it raises ValueError) and `'{}'.format(x)`. */
  datatype NumberText = NumberText(parse: string -> Option<real>, format: real -> string)

  /** Number text that a line can carry in its first fields: non-empty, no tab
      or newline, and not starting with blank or `#`. */
  predicate CleanNumber(s: string) {
    && s != []
    && !IsSpace(s[0]) && s[0] != '#'
    && '\t' !in s && '\n' !in s
  }

  /** `x` survives being written and read back: its text parses to `x` and
      can stand as a leading field of a line. */
  predicate NumberOk(nt: NumberText, x: real) {
    nt.parse(nt.format(x)) == Some(x) && CleanNumber(nt.format(x))
  }

  /** Both numbers of an entry survive being written and read back. */
  predicate EntryOk(nt: NumberText, e: Entry) {
    NumberOk(nt, e.weight) && NumberOk(nt, e.volume)
  }

  /** Number text that writes every number as `1` and reads only `1`. */
  function UnitText(): NumberText {
    NumberText(s => if s == "1" then Some(1.0) else None, x => "1")
  }

  /** The round-trip condition can be met: under `UnitText`, an entry of
      weight 1 and volume 1 survives being written and read back, and one of
      weight 2 does not. */
  lemma EntryOkSatisfiable()
    ensures EntryOk(UnitText(), Entry(1.0, 1.0))
    ensures !EntryOk(UnitText(), Entry(2.0, 1.0))
  {
    assert "1"[0] == '1';
  }

  function Float(nt: NumberText, text: string): (r: Result<real, Error>)
    ensures r.Err? <==> nt.parse(text).None?
    ensures r.Err? ==> r.error == BadNumber(text)
    ensures r.Ok? ==> Some(r.value) == nt.parse(text)
  {
    match nt.parse(text)
    case Some(x) => Ok(x)
    case None => Err(BadNumber(text))
  }

  /** A line `readfile` skips once its last character is gone. */
  predicate Skipped(line: string) {
    line == [] || IsPrefix("#", LStrip(line))
  }

  /** The body of `readfile`'s loop for one raw line, newline included:
      Ok(None) for a skipped line, the record, or the ValueError raised. */
  function ParseLine(nt: NumberText, raw: string): (r: Result<Option<Record>, Error>)
    ensures r == Ok(None) <==> Skipped(DropLast(raw))
    ensures !Skipped(DropLast(raw)) && '\t' !in DropLast(raw) ==> r == Err(BadLine(DropLast(raw)))
  {
    var line := DropLast(raw);
    if Skipped(line) then Ok(None)
    else
      var parts := SplitTab2(line);
      if |parts| == 2 then
        var w :- Float(nt, parts[0]);
        var v := 1.0;
        Ok(Some(Record(parts[1], Entry(w, v))))
      else if |parts| == 3 then
        var w :- Float(nt, parts[0]);
        var v :- Float(nt, parts[1]);
        Ok(Some(Record(parts[2], Entry(w, v))))
      else
        Err(BadLine(line))
  }

  /** The records read from `lines` before the first error, and that error. */
  datatype Parsed = Parsed(records: seq<Record>, error: Option<Error>)

  function ParseLines(nt: NumberText, lines: seq<string>): Parsed {
    if lines == [] then Parsed([], None)
    else
      match ParseLine(nt, lines[0])
      case Err(e) => Parsed([], Some(e))
      case Ok(None) => ParseLines(nt, lines[1..])
      case Ok(Some(rec)) =>
        var rest := ParseLines(nt, lines[1..]);
        Parsed([rec] + rest.records, rest.error)
  }

  /** One step of reading `lines` from index `i`. */
  lemma ParseLinesStep(nt: NumberText, lines: seq<string>, i: nat)
    requires i < |lines|
    ensures var rest := ParseLines(nt, lines[i + 1..]);
      ParseLines(nt, lines[i..]) ==
        match ParseLine(nt, lines[i])
        case Err(e) => Parsed([], Some(e))
        case Ok(None) => rest
        case Ok(Some(rec)) => Parsed([rec] + rest.records, rest.error)
  {
    assert lines[i..][0] == lines[i] && lines[i..][1..] == lines[i + 1..];
  }

  /** `add_item` of each record in turn: a repeated path overwrites the
      earlier value in the earlier place. */
  function PutRecords(m: Entries, rs: seq<Record>): (r: Entries)
    requires m.Valid()
    ensures r.Valid()
    decreases |rs|
  {
    if rs == [] then m else PutRecords(m.Put(rs[0].path, rs[0].entry), rs[1..])
  }

  lemma PutRecordsCons(m: Entries, rec: Record, rs: seq<Record>)
    requires m.Valid()
    ensures PutRecords(m, [rec] + rs) == PutRecords(m.Put(rec.path, rec.entry), rs)
  {
    assert ([rec] + rs)[1..] == rs;
  }

  /** A playlist's entries and dirty flag after `readfile` has added the
      records of `lines` one by one, and the exception that stopped it. */
  datatype LoadState = LoadState(entries: Entries, dirty: bool, error: Option<Error>)

  /** `readfile`'s loop from a given state: each record is added as it is
      read, so a bad line leaves the earlier records added. */
  function LoadLines(nt: NumberText, m: Entries, dirty: bool, lines: seq<string>): (r: LoadState)
    requires m.Valid()
    ensures r.entries.Valid()
    decreases |lines|
  {
    if lines == [] then LoadState(m, dirty, None)
    else
      match ParseLine(nt, lines[0])
      case Err(e) => LoadState(m, dirty, Some(e))
      case Ok(None) => LoadLines(nt, m, dirty, lines[1..])
      case Ok(Some(rec)) => LoadLines(nt, m.Put(rec.path, rec.entry), true, lines[1..])
  }

  /** One step of `readfile`'s loop, at index `i` of the lines. */
  lemma LoadLinesStep(nt: NumberText, m: Entries, dirty: bool, lines: seq<string>, i: nat)
    requires m.Valid() && i < |lines|
    ensures LoadLines(nt, m, dirty, lines[i..]) ==
      var parsed := ParseLine(nt, lines[i]);
      if parsed.Err? then LoadState(m, dirty, Some(parsed.error))
      else if parsed.value.None? then LoadLines(nt, m, dirty, lines[i + 1..])
      else LoadLines(nt, m.Put(parsed.value.value.path, parsed.value.value.entry), true, lines[i + 1..])
  {
    assert lines[i..][0] == lines[i] && lines[i..][1..] == lines[i + 1..];
  }

  /** Adding records as they are read is adding, in order, the records read
      before the first error; the playlist turns dirty when one was added. */
  lemma {:induction false} LoadLinesParses(nt: NumberText, m: Entries, dirty: bool, lines: seq<string>)
    requires m.Valid()
    ensures var p := ParseLines(nt, lines);
      LoadLines(nt, m, dirty, lines) == LoadState(PutRecords(m, p.records), dirty || p.records != [], p.error)
    decreases |lines|
  {
    if lines != [] {
      match ParseLine(nt, lines[0]) {
        case Err(e) =>
        case Ok(None) =>
          LoadLinesParses(nt, m, dirty, lines[1..]);
        case Ok(Some(rec)) =>
          LoadLinesParses(nt, m.Put(rec.path, rec.entry), true, lines[1..]);
          PutRecordsCons(m, rec, ParseLines(nt, lines[1..]).records);
      }
    }
  }

  /** Only the last character of a line `for line in f` yields can be a newline. */
  lemma {:induction false} LinesHaveNoInnerNewline(text: string)
    ensures forall l :: l in Lines(text) ==> '\n' !in DropLast(l)
    decreases |text|
  {
    if text != [] {
      var i := Find(text, '\n');
      if i < |text| {
        var line := text[..i + 1];
        assert DropLast(line) == text[..i];
        LinesHaveNoInnerNewline(text[i + 1..]);
      }
    }
  }

  /** The path of a record read from a line is part of the line. */
  lemma ParsedPathHasNoNewline(nt: NumberText, raw: string)
    requires '\n' !in DropLast(raw)
    ensures ParseLine(nt, raw).Ok? && ParseLine(nt, raw).value.Some? ==> '\n' !in ParseLine(nt, raw).value.value.path
  {
    var line := DropLast(raw);
    if !Skipped(line) {
      var parts := SplitTab2(line);
      if |parts| == 2 {
        ParseFields(nt, raw, parts);
        NotInSuffix(parts[0] + "\t", parts[1], '\n');
      } else if |parts| == 3 {
        ParseFields(nt, raw, parts);
        NotInSuffix(parts[0] + "\t" + parts[1] + "\t", parts[2], '\n');
      }
    }
  }

  lemma {:induction false} ParsedPathsHaveNoNewline(nt: NumberText, lines: seq<string>)
    requires forall l :: l in lines ==> '\n' !in DropLast(l)
    ensures forall r :: r in ParseLines(nt, lines).records ==> '\n' !in r.path
  {
    if lines != [] {
      ParsedPathHasNoNewline(nt, lines[0]);
      ParsedPathsHaveNoNewline(nt, lines[1..]);
    }
  }

  lemma {:induction false} PutRecordsNoNewline(m: Entries, rs: seq<Record>)
    requires m.Valid()
    requires forall k :: k in m.vals ==> '\n' !in k
    requires forall r :: r in rs ==> '\n' !in r.path
    ensures forall k :: k in PutRecords(m, rs).vals ==> '\n' !in k
    decreases |rs|
  {
    if rs != [] {
      var next := m.Put(rs[0].path, rs[0].entry);
      assert forall k :: k in next.vals ==> k in m.vals || k == rs[0].path;
      PutRecordsNoNewline(next, rs[1..]);
    }
  }

  /** The line `write` emits for one entry. */
  function FormatRecord(nt: NumberText, path: Path, e: Entry): string {
    nt.format(e.weight) + "\t" + nt.format(e.volume) + "\t" + path + "\n"
  }

  function SerializeKeys(nt: NumberText, ks: seq<Path>, vals: map<Path, Entry>): string
    requires forall k :: k in ks ==> k in vals
  {
    if ks == [] then [] else FormatRecord(nt, ks[0], vals[ks[0]]) + SerializeKeys(nt, ks[1..], vals)
  }

  /** The whole text `write` emits, one line per entry in entry order. */
  function Serialize(nt: NumberText, m: Entries): string
    requires m.Valid()
  {
    SerializeKeys(nt, m.keys, m.vals)
  }

  function RecordsOf(ks: seq<Path>, vals: map<Path, Entry>): (rs: seq<Record>)
    requires forall k :: k in ks ==> k in vals
    ensures |rs| == |ks| && forall i :: 0 <= i < |ks| ==> rs[i] == Record(ks[i], vals[ks[i]])
  {
    if ks == [] then [] else [Record(ks[0], vals[ks[0]])] + RecordsOf(ks[1..], vals)
  }

  /** A canonical line reads back as the record it was written from; the
      path is the rest of the line, tabs included. */
  lemma ThreeFieldLine(nt: NumberText, w: string, v: string, path: string, x: real, y: real)
    requires CleanNumber(w) && '\t' !in v
    requires nt.parse(w) == Some(x) && nt.parse(v) == Some(y)
    ensures ParseLine(nt, w + "\t" + v + "\t" + path + "\n") == Ok(Some(Record(path, Entry(x, y))))
  {
    var line := w + "\t" + v + "\t" + path;
    KeptLine(line, w);
    SplitThreeFields(w, v, path);
    ParseFields(nt, line + "\n", [w, v, path]);
  }

  /** A line that starts with the first character of clean number text is
      neither blank nor a comment. */
  lemma KeptLine(line: string, w: string)
    requires CleanNumber(w) && |w| <= |line| && line[..|w|] == w
    ensures !Skipped(line) && DropLast(line + "\n") == line
  {
    assert line[0] == w[0];
    LStripKeeps(line);
    assert (line + "\n")[..|line|] == line;
  }

  /** What `readfile` does with a kept line once it is split. */
  lemma ParseFields(nt: NumberText, raw: string, parts: seq<string>)
    requires !Skipped(DropLast(raw)) && SplitTab2(DropLast(raw)) == parts && 2 <= |parts|
    ensures |parts| == 2 ==> var w := nt.parse(parts[0]);
      ParseLine(nt, raw) == if w.None? then Err(BadNumber(parts[0])) else Ok(Some(Record(parts[1], Entry(w.value, 1.0))))
    ensures |parts| == 3 ==> var w, v := nt.parse(parts[0]), nt.parse(parts[1]);
      ParseLine(nt, raw) ==
        if w.None? then Err(BadNumber(parts[0]))
        else if v.None? then Err(BadNumber(parts[1]))
        else Ok(Some(Record(parts[2], Entry(w.value, v.value))))
  {
  }

  /** A legacy two-field line gets volume 1. */
  lemma TwoFieldLine(nt: NumberText, w: string, path: string, x: real)
    requires CleanNumber(w) && '\t' !in path
    requires nt.parse(w) == Some(x)
    ensures ParseLine(nt, w + "\t" + path + "\n") == Ok(Some(Record(path, Entry(x, 1.0))))
  {
    var line := w + "\t" + path;
    KeptLine(line, w);
    SplitTwoFields(w, path);
    ParseFields(nt, line + "\n", [w, path]);
  }

  /** A kept line whose weight field `float` rejects raises ValueError
      carrying that field, whatever follows it. */
  lemma BadWeightRaises(nt: NumberText, w: string, rest: string)
    requires CleanNumber(w) && nt.parse(w).None?
    ensures ParseLine(nt, w + "\t" + rest + "\n") == Err(BadNumber(w))
  {
    var line := w + "\t" + rest;
    KeptLine(line, w);
    SplitFirstField(w, rest);
    ParseFields(nt, line + "\n", SplitTab2(line));
  }

  /** A three-field line whose weight parses but whose volume `float`
      rejects raises ValueError carrying the volume field. */
  lemma BadVolumeRaises(nt: NumberText, w: string, v: string, path: string)
    requires CleanNumber(w) && '\t' !in v && nt.parse(w).Some? && nt.parse(v).None?
    ensures ParseLine(nt, w + "\t" + v + "\t" + path + "\n") == Err(BadNumber(v))
  {
    var line := w + "\t" + v + "\t" + path;
    KeptLine(line, w);
    SplitThreeFields(w, v, path);
    ParseFields(nt, line + "\n", [w, v, path]);
  }

  /** A line with no tab that is neither blank nor a comment raises
      ValueError carrying the line. */
  lemma SingleFieldLine(nt: NumberText, raw: string)
    requires !Skipped(DropLast(raw)) && '\t' !in DropLast(raw)
    ensures ParseLine(nt, raw) == Err(BadLine(DropLast(raw)))
  {
  }

  /** `line[:-1]` drops the last character even when it is not a newline:
      a file whose last line lacks one loses that line's last character. */
  lemma LastLineLosesLastChar(nt: NumberText, w: string, path: string, c: char, x: real)
    requires CleanNumber(w) && '\t' !in path && '\n' !in path && c != '\n'
    requires nt.parse(w) == Some(x)
    ensures ParseLines(nt, Lines(w + "\t" + path + [c])) == Parsed([Record(path, Entry(x, 1.0))], None)
  {
    var line := w + "\t" + path;
    var text := line + [c];
    assert DropLast(text) == line == DropLast(line + "\n");
    TwoFieldLine(nt, w, path, x);
    SameBody(nt, text, line + "\n");
    LinesSingle(text);
    ParseRecordCons(nt, text, [], Record(path, Entry(x, 1.0)));
    OneAsCons(text);
    OneAsCons(Record(path, Entry(x, 1.0)));
  }

  lemma OneAsCons<T>(a: T)
    ensures [a] == [a] + []
  {
  }

  /** Only the part of a line before its last character matters. */
  lemma SameBody(nt: NumberText, raw: string, raw': string)
    requires DropLast(raw) == DropLast(raw')
    ensures ParseLine(nt, raw) == ParseLine(nt, raw')
  {
  }

  /** Each canonical line parses back into its entry's record. */
  lemma FormatRecordParses(nt: NumberText, path: Path, e: Entry)
    requires EntryOk(nt, e)
    ensures ParseLine(nt, FormatRecord(nt, path, e)) == Ok(Some(Record(path, e)))
  {
    var w, v := nt.format(e.weight), nt.format(e.volume);
    assert CleanNumber(w) && CleanNumber(v);
    ThreeFieldLine(nt, w, v, path, e.weight, e.volume);
  }

  /** Reading what `write` emits gives back every entry, in order, with no
      error, provided every stored number round-trips and no path holds a
      newline. */
  lemma {:induction false} ParseSerialized(nt: NumberText, ks: seq<Path>, vals: map<Path, Entry>)
    requires forall k :: k in ks ==> k in vals && '\n' !in k && EntryOk(nt, vals[k])
    ensures ParseLines(nt, Lines(SerializeKeys(nt, ks, vals))) == Parsed(RecordsOf(ks, vals), None)
  {
    if ks != [] {
      var k := ks[0];
      var tail := SerializeKeys(nt, ks[1..], vals);
      assert SerializeKeys(nt, ks, vals) == FormatRecord(nt, k, vals[k]) + tail;
      ParseFormattedLine(nt, k, vals[k], tail);
      ParseSerialized(nt, ks[1..], vals);
    } else {
      assert SerializeKeys(nt, ks, vals) == [];
    }
  }

  /** A canonical line in front of any text reads as its record followed by
      what the text reads as. */
  lemma ParseFormattedLine(nt: NumberText, path: Path, e: Entry, tail: string)
    requires EntryOk(nt, e) && '\n' !in path
    ensures ParseLines(nt, Lines(FormatRecord(nt, path, e) + tail)) ==
      Parsed([Record(path, e)] + ParseLines(nt, Lines(tail)).records, ParseLines(nt, Lines(tail)).error)
  {
    var line := FormatRecord(nt, path, e);
    FormatRecordIsOneLine(nt, path, e);
    LinesCons(line, tail);
    FormatRecordParses(nt, path, e);
    ParseRecordCons(nt, line, Lines(tail), Record(path, e));
  }

  /** A canonical line holds exactly one newline, at its end. */
  lemma FormatRecordIsOneLine(nt: NumberText, path: Path, e: Entry)
    requires EntryOk(nt, e) && '\n' !in path
    ensures var line := FormatRecord(nt, path, e);
      line != [] && line[|line| - 1] == '\n' && '\n' !in line[..|line| - 1]
  {
    var line := FormatRecord(nt, path, e);
    var w, v := nt.format(e.weight), nt.format(e.volume);
    assert CleanNumber(w) && CleanNumber(v);
    assert line[..|line| - 1] == w + "\t" + v + "\t" + path;
  }

  /** A line that reads as a record puts that record in front of what the
      following lines read as. */
  lemma ParseRecordCons(nt: NumberText, line: string, lines: seq<string>, rec: Record)
    requires ParseLine(nt, line) == Ok(Some(rec))
    ensures ParseLines(nt, [line] + lines) ==
      Parsed([rec] + ParseLines(nt, lines).records, ParseLines(nt, lines).error)
  {
    assert ([line] + lines)[0] == line && ([line] + lines)[1..] == lines;
  }

  /** Putting distinct new records appends their paths in order and maps
      each to its entry. */
  lemma {:induction false} PutFreshRecords(m: Entries, ks: seq<Path>, vals: map<Path, Entry>)
    requires m.Valid() && Distinct(ks)
    requires forall k :: k in ks ==> k in vals && k !in m.vals
    ensures PutRecords(m, RecordsOf(ks, vals)).keys == m.keys + ks
    ensures forall j :: PutRecords(m, RecordsOf(ks, vals)).Get(j) == if j in ks then Some(vals[j]) else m.Get(j)
    decreases |ks|
  {
    if ks == [] {
      assert m.keys + ks == m.keys;
    } else {
      DistinctHead(ks);
      var next := m.Put(ks[0], vals[ks[0]]);
      assert RecordsOf(ks, vals) == [Record(ks[0], vals[ks[0]])] + RecordsOf(ks[1..], vals);
      PutFreshRecords(next, ks[1..], vals);
      ConcatAssoc(m.keys, [ks[0]], ks[1..]);
      assert ks == [ks[0]] + ks[1..];
    }
  }

  /** Saving a playlist and loading the file into an empty one gives the same
      entries in the same order. */
  lemma LoadSerialized(nt: NumberText, m: Entries)
    requires m.Valid()
    requires forall k :: k in m.vals ==> '\n' !in k && EntryOk(nt, m.vals[k])
    ensures ParseLines(nt, Lines(Serialize(nt, m))).error == None
    ensures PutRecords(Empty(), ParseLines(nt, Lines(Serialize(nt, m))).records) == m
  {
    ParseSerialized(nt, m.keys, m.vals);
    RecordsRebuild(m);
  }

  /** Adding the records of `m`, in order, to an empty playlist rebuilds `m`. */
  lemma RecordsRebuild(m: Entries)
    requires m.Valid()
    ensures PutRecords(Empty(), RecordsOf(m.keys, m.vals)) == m
  {
    var r := PutRecords(Empty(), RecordsOf(m.keys, m.vals));
    PutFreshRecords(Empty(), m.keys, m.vals);
    assert [] + m.keys == m.keys;
    forall j ensures r.Get(j) == m.Get(j) {
      assert j in m.keys <==> j in m.vals;
    }
    SameGet(r, m);
  }

  /** Load then save turns a legacy two-field line into the canonical
      three-field line with volume 1. */
  lemma LegacyLineResaved(nt: NumberText, w: string, path: string, x: real)
    requires CleanNumber(w) && '\t' !in path && '\n' !in path
    requires nt.parse(w) == Some(x)
    ensures ParseLines(nt, Lines(w + "\t" + path + "\n")) == Parsed([Record(path, Entry(x, 1.0))], None)
    ensures Serialize(nt, PutRecords(Empty(), [Record(path, Entry(x, 1.0))])) ==
      nt.format(x) + "\t" + nt.format(1.0) + "\t" + path + "\n"
  {
    var line := w + "\t" + path + "\n";
    assert line[..|line| - 1] == w + "\t" + path;
    TwoFieldLine(nt, w, path, x);
    SingleLineParses(nt, line);
    SerializeOne(nt, path, Entry(x, 1.0));
  }

  /** A file of one newline-terminated line yields what that line yields. */
  lemma SingleLineParses(nt: NumberText, line: string)
    requires line != [] && line[|line| - 1] == '\n' && '\n' !in line[..|line| - 1]
    ensures ParseLines(nt, Lines(line)) ==
      match ParseLine(nt, line)
      case Err(e) => Parsed([], Some(e))
      case Ok(None) => Parsed([], None)
      case Ok(Some(rec)) => Parsed([rec], None)
  {
    LinesCons(line, []);
    assert line + [] == line;
    assert [line][1..] == [];
  }

  lemma SerializeOne(nt: NumberText, path: Path, e: Entry)
    ensures Serialize(nt, PutRecords(Empty(), [Record(path, e)])) == FormatRecord(nt, path, e)
  {
    var m := OrderedMap([path], map[path := e]);
    assert PutRecords(Empty(), [Record(path, e)]) == m by {
      assert [Record(path, e)][1..] == [];
    }
    var line := FormatRecord(nt, path, e);
    calc {
      SerializeKeys(nt, [path], m.vals);
      line + SerializeKeys(nt, [path][1..], m.vals);
      { assert [path][1..] == []; }
      line + [];
      { assert line + [] == line; }
      line;
    }
  }
}
