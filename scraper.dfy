/** `out_reader` of awp/play.py and awp/simple.py: both sniff the player's
    output for reports of the form `Volume: X %`, echo the output to the
    terminal, and turn each complete report into a volume. The two copies
    scan identically; they differ only in what they do with a report (play.py
    keeps the last one, simple.py updates the playlist at once), so one
    scanner serves both. The child's output is a finite string whose end is
    EOF. */
module VolumeScraper {
  import opened Wrappers
  import opened Errors
  import opened Text
  import opened PlaylistFormat

  const VOLUME: string := "Volume:"

  /** The environment settings the scanner depends on: `VOL_FUDGE == 1`
      and the integer `VOL_MAX`. */
  datatype Settings = Settings(fudgeIsOne: bool, volMax: int)

  /** What the scanner produced: the text echoed, the volumes reported in
      order, and the exception that ended the greenlet, if any. */
  datatype Scanned = Scanned(echo: string, reports: seq<real>, error: Option<Error>)

  /** `float(volbuf) * VOL_MAX / 100.` */
  function ReportedVolume(x: real, volMax: int): real {
    x * volMax as real / 100.0
  }

  /** The echo `e` comes first, then whatever `s` produced. */
  function Echoed(e: string, s: Scanned): Scanned {
    Scanned(e + s.echo, s.reports, s.error)
  }

  function Reported(v: real, s: Scanned): Scanned {
    Scanned(s.echo, [v] + s.reports, s.error)
  }

  /** The outer loop with `buf` held back (a proper prefix of `Volume:`)
      and `input` still to be read. EOF drops `buf`. */
  function Scan(nt: NumberText, st: Settings, buf: string, input: string): Scanned
    decreases |input|, 1
  {
    if input == [] then Scanned([], [], None)
    else
      var b := buf + [input[0]];
      if !IsPrefix(b, VOLUME) then Echoed(b, Scan(nt, st, [], input[1..]))
      else if b == VOLUME then ScanReport(nt, st, b, [], input[1..])
      else Scan(nt, st, b, input[1..])
  }

  /** The inner loop after `Volume:`: `buf` holds all the report so far and
      `volbuf` the text after `Volume:`. EOF drops the partial report; a
      number `float` rejects ends the greenlet with nothing more echoed. */
  function ScanReport(nt: NumberText, st: Settings, buf: string, volbuf: string, input: string): Scanned
    decreases |input|, 0
  {
    if input == [] then Scanned([], [], None)
    else
      var c := input[0];
      var b := buf + [c];
      if c != '%' then ScanReport(nt, st, b, volbuf + [c], input[1..])
      else if !st.fudgeIsOne then Echoed(b, Scan(nt, st, [], input[1..]))
      else
        match nt.parse(volbuf)
        case None => Scanned([], [], Some(BadNumber(volbuf)))
        case Some(x) => Reported(ReportedVolume(x, st.volMax), Echoed(b, Scan(nt, st, [], input[1..])))
  }

  /** The output `out_reader` produces from the whole of the child's output. */
  function OutReaderSpec(nt: NumberText, st: Settings, out: string): Scanned {
    Scan(nt, st, [], out)
  }

  /** `acc` followed by `rest`. */
  function Then(acc: Scanned, rest: Scanned): Scanned {
    Scanned(acc.echo + rest.echo, acc.reports + rest.reports, rest.error)
  }

  /** `out_reader(out, stdout, filename)`, with the echoed text and the
      reported volumes as results. */
  method OutReader(nt: NumberText, st: Settings, out: string) returns (r: Scanned)
    ensures r == OutReaderSpec(nt, st, out)
  {
    var echo: string := [];
    var reports: seq<real> := [];
    var buf: string := [];
    var i := 0;
    assert out[i..] == out;
    assert Then(Scanned(echo, reports, None), Scan(nt, st, buf, out[i..])) == Scan(nt, st, [], out);
    while i < |out|
      invariant 0 <= i <= |out|
      invariant IsPrefix(buf, VOLUME) && buf != VOLUME
      invariant Then(Scanned(echo, reports, None), Scan(nt, st, buf, out[i..])) == Scan(nt, st, [], out)
      decreases |out| - i
    {
      assert out[i..][0] == out[i] && out[i..][1..] == out[i + 1..];
      buf := buf + [out[i]];
      i := i + 1;
      if !IsPrefix(buf, VOLUME) {
        ThenEchoed(echo, reports, buf, Scan(nt, st, [], out[i..]));
        echo := echo + buf;
        buf := [];
      } else if buf == VOLUME {
        var stop;
        i, echo, reports, stop := ReadReport(nt, st, out, i, echo, reports);
        if stop.Some? {
          return stop.value;
        }
        buf := [];
      }
    }
    assert out[i..] == [];
    assert echo + [] == echo && reports + [] == reports;
    return Scanned(echo, reports, None);
  }

  /** The inner loop of `out_reader` once `Volume:` has been read at `i0`:
      either the greenlet stops (EOF or a bad number) with `stop`, or the
      report is echoed, recorded, and scanning resumes at `i`. */
  method ReadReport(nt: NumberText, st: Settings, out: string, i0: nat, echo0: string, reports0: seq<real>)
      returns (i: nat, echo: string, reports: seq<real>, stop: Option<Scanned>)
    requires i0 <= |out|
    ensures i0 <= i <= |out|
    ensures stop.Some? ==> stop.value == Then(Scanned(echo0, reports0, None), ScanReport(nt, st, VOLUME, [], out[i0..]))
    ensures stop.None? ==>
      Then(Scanned(echo, reports, None), Scan(nt, st, [], out[i..])) == Then(Scanned(echo0, reports0, None), ScanReport(nt, st, VOLUME, [], out[i0..]))
  {
    ghost var spec := Then(Scanned(echo0, reports0, None), ScanReport(nt, st, VOLUME, [], out[i0..]));
    i, echo, reports := i0, echo0, reports0;
    var buf := VOLUME;
    var volbuf: string := [];
    while i < |out|
      invariant i0 <= i <= |out|
      invariant Then(Scanned(echo, reports, None), ScanReport(nt, st, buf, volbuf, out[i..])) == spec
      decreases |out| - i
    {
      assert out[i..][0] == out[i] && out[i..][1..] == out[i + 1..];
      var c := out[i];
      buf := buf + [c];
      i := i + 1;
      if c == '%' {
        if st.fudgeIsOne {
          var x := nt.parse(volbuf);
          if x.None? {
            assert echo + [] == echo && reports + [] == reports;
            return i, echo, reports, Some(Scanned(echo, reports, Some(BadNumber(volbuf))));
          }
          ThenReported(echo, reports, ReportedVolume(x.value, st.volMax), Echoed(buf, Scan(nt, st, [], out[i..])));
          reports := reports + [ReportedVolume(x.value, st.volMax)];
        }
        ThenEchoed(echo, reports, buf, Scan(nt, st, [], out[i..]));
        echo := echo + buf;
        return i, echo, reports, None;
      }
      volbuf := volbuf + [c];
    }
    // EOF in the middle of a report: the partial report is dropped.
    assert out[i..] == [];
    assert echo + [] == echo && reports + [] == reports;
    return i, echo, reports, Some(Scanned(echo, reports, None));
  }

  lemma ThenEchoed(e: string, rs: seq<real>, b: string, s: Scanned)
    ensures Then(Scanned(e, rs, None), Echoed(b, s)) == Then(Scanned(e + b, rs, None), s)
  {
    assert e + (b + s.echo) == (e + b) + s.echo;
  }

  lemma ThenReported(e: string, rs: seq<real>, v: real, s: Scanned)
    ensures Then(Scanned(e, rs, None), Reported(v, s)) == Then(Scanned(e, rs + [v], None), s)
  {
    assert rs + ([v] + s.reports) == (rs + [v]) + s.reports;
  }

  /** The echoed text is always a prefix of what was held back and read. */
  lemma {:induction false} ScanEchoPrefix(nt: NumberText, st: Settings, buf: string, input: string)
    ensures IsPrefix(Scan(nt, st, buf, input).echo, buf + input)
    decreases |input|, 1
  {
    if input != [] {
      var b := buf + [input[0]];
      assert buf + input == b + input[1..];
      if !IsPrefix(b, VOLUME) {
        ScanEchoPrefix(nt, st, [], input[1..]);
        assert [] + input[1..] == input[1..];
      } else if b == VOLUME {
        ScanReportEchoPrefix(nt, st, b, [], input[1..]);
      } else {
        ScanEchoPrefix(nt, st, b, input[1..]);
      }
    }
  }

  lemma {:induction false} ScanReportEchoPrefix(nt: NumberText, st: Settings, buf: string, volbuf: string, input: string)
    ensures IsPrefix(ScanReport(nt, st, buf, volbuf, input).echo, buf + input)
    decreases |input|, 0
  {
    if input != [] {
      var c := input[0];
      var b := buf + [c];
      assert buf + input == b + input[1..];
      if c != '%' {
        ScanReportEchoPrefix(nt, st, b, volbuf + [c], input[1..]);
      } else if !st.fudgeIsOne || nt.parse(volbuf).Some? {
        ScanEchoPrefix(nt, st, [], input[1..]);
        assert [] + input[1..] == input[1..];
      }
    }
  }

  /** At EOF unechoed bytes are discarded, so the echo is a prefix of the
      child's output. */
  lemma EchoIsPrefixOfOutput(nt: NumberText, st: Settings, out: string)
    ensures IsPrefix(OutReaderSpec(nt, st, out).echo, out)
  {
    ScanEchoPrefix(nt, st, [], out);
    assert [] + out == out;
  }

  /** Output without a `V` holds no report and is echoed byte by byte, all of it. */
  lemma {:induction false} NoVolumeEchoesAll(nt: NumberText, st: Settings, input: string)
    requires 'V' !in input
    ensures Scan(nt, st, [], input) == Scanned(input, [], None)
  {
    if input != [] {
      var b := [] + [input[0]];
      assert b[0] == input[0] && b[0] != VOLUME[0];
      assert !IsPrefix(b, VOLUME);
      NoVolumeEchoesAll(nt, st, input[1..]);
      assert b + input[1..] == input;
    }
  }

  /** When the held-back text stops being a prefix of `Volume:` it is echoed
      whole and not rescanned: `VVolume: 50%` is echoed and reports nothing. */
  lemma DoubledVNotRescanned(nt: NumberText, st: Settings, rest: string)
    requires 'V' !in rest
    ensures OutReaderSpec(nt, st, "VV" + rest) == Scanned("VV" + rest, [], None)
  {
    var s := "VV" + rest;
    assert s[0] == 'V' && s[1] == 'V' && s[1..][0] == 'V' && s[1..][1..] == rest;
    assert [] + [s[0]] == "V";
    assert IsPrefix("V", VOLUME);
    assert "V" + [s[1..][0]] == "VV";
    assert VOLUME[1] == 'o';
    assert !IsPrefix("VV", VOLUME);
    assert Scan(nt, st, [], s) == Scan(nt, st, "V", s[1..]);
    assert Scan(nt, st, "V", s[1..]) == Echoed("VV", Scan(nt, st, [], rest));
    NoVolumeEchoesAll(nt, st, rest);
  }

  /** `Volume:` followed by text without `%` and then EOF: the partial report
      is dropped and nothing of it is echoed. */
  lemma {:induction false} PartialReportDropped(nt: NumberText, st: Settings, buf: string, volbuf: string, body: string)
    requires '%' !in body
    ensures ScanReport(nt, st, buf, volbuf, body) == Scanned([], [], None)
    decreases |body|
  {
    if body != [] {
      assert body[0] != '%';
      PartialReportDropped(nt, st, buf + [body[0]], volbuf + [body[0]], body[1..]);
    }
  }

  /** Every prefix of `Volume:` is held back; the last character starts the report. */
  lemma ScanVolumeHeader(nt: NumberText, st: Settings, rest: string)
    ensures Scan(nt, st, [], VOLUME + rest) == ScanReport(nt, st, VOLUME, [], rest)
  {
    HeaderFrom(nt, st, 0, rest);
    assert VOLUME[..0] == [] && VOLUME[0..] == VOLUME;
  }

  lemma {:induction false} HeaderFrom(nt: NumberText, st: Settings, k: nat, rest: string)
    requires k < |VOLUME|
    ensures Scan(nt, st, VOLUME[..k], VOLUME[k..] + rest) == ScanReport(nt, st, VOLUME, [], rest)
    decreases |VOLUME| - k
  {
    var input := VOLUME[k..] + rest;
    assert input[0] == VOLUME[k];
    assert input[1..] == VOLUME[k + 1..] + rest;
    var b := VOLUME[..k] + [VOLUME[k]];
    assert b == VOLUME[..k + 1];
    assert IsPrefix(b, VOLUME);
    if k + 1 < |VOLUME| {
      assert |b| != |VOLUME|;
      HeaderFrom(nt, st, k + 1, rest);
    } else {
      assert b == VOLUME;
      assert VOLUME[k + 1..] + rest == rest;
    }
  }

  /** A report body up to its `%`, when `VOL_FUDGE` is 1 and `float` accepts
      it, records `float(body) * VOL_MAX / 100` and echoes the whole report. */
  lemma {:induction false} ReportBody(nt: NumberText, st: Settings, buf: string, volbuf: string, body: string, rest: string)
    requires '%' !in body && st.fudgeIsOne && nt.parse(volbuf + body).Some?
    ensures ScanReport(nt, st, buf, volbuf, body + "%" + rest)
      == Reported(ReportedVolume(nt.parse(volbuf + body).value, st.volMax), Echoed(buf + body + "%", Scan(nt, st, [], rest)))
    decreases |body|
  {
    var s := body + "%" + rest;
    if body == [] {
      assert s[0] == '%' && s[1..] == rest;
      assert volbuf + body == volbuf;
    } else {
      assert s[0] == body[0] && s[0] != '%' && s[1..] == body[1..] + "%" + rest;
      assert volbuf + body == (volbuf + [body[0]]) + body[1..];
      assert buf + body == (buf + [body[0]]) + body[1..];
      ReportBody(nt, st, buf + [body[0]], volbuf + [body[0]], body[1..], rest);
    }
  }

  /** A complete report in the output records its volume and echoes it;
      a report without its `%` before EOF records and echoes nothing. */
  lemma ReportRecorded(nt: NumberText, st: Settings, body: string, rest: string)
    requires '%' !in body && st.fudgeIsOne && nt.parse(body).Some?
    ensures OutReaderSpec(nt, st, VOLUME + body + "%" + rest)
      == Reported(ReportedVolume(nt.parse(body).value, st.volMax), Echoed(VOLUME + body + "%", Scan(nt, st, [], rest)))
    ensures OutReaderSpec(nt, st, VOLUME + body) == Scanned([], [], None)
  {
    ScanVolumeHeader(nt, st, body + "%" + rest);
    assert VOLUME + body + "%" + rest == VOLUME + (body + "%" + rest);
    assert [] + body == body;
    ReportBody(nt, st, VOLUME, [], body, rest);
    ScanVolumeHeader(nt, st, body);
    PartialReportDropped(nt, st, VOLUME, [], body);
  }

  /** With `VOL_FUDGE` other than 1 no report is taken and none can fail. */
  lemma {:induction false} FudgeDisablesReports(nt: NumberText, st: Settings, buf: string, input: string)
    requires !st.fudgeIsOne
    ensures Scan(nt, st, buf, input).reports == [] && Scan(nt, st, buf, input).error == None
    decreases |input|, 1
  {
    if input != [] {
      var b := buf + [input[0]];
      if !IsPrefix(b, VOLUME) {
        FudgeDisablesReports(nt, st, [], input[1..]);
      } else if b == VOLUME {
        FudgeDisablesReportsInReport(nt, st, b, [], input[1..]);
      } else {
        FudgeDisablesReports(nt, st, b, input[1..]);
      }
    }
  }

  lemma {:induction false} FudgeDisablesReportsInReport(nt: NumberText, st: Settings, buf: string, volbuf: string, input: string)
    requires !st.fudgeIsOne
    ensures ScanReport(nt, st, buf, volbuf, input).reports == [] && ScanReport(nt, st, buf, volbuf, input).error == None
    decreases |input|, 0
  {
    if input != [] {
      var c := input[0];
      if c != '%' {
        FudgeDisablesReportsInReport(nt, st, buf + [c], volbuf + [c], input[1..]);
      } else {
        FudgeDisablesReports(nt, st, [], input[1..]);
      }
    }
  }

  /** play.py's `new_volume[0]`: each report overwrites the one before, so
      what remains is the last. */
  function LastReport(reports: seq<real>): (r: Option<real>)
    ensures r.None? <==> reports == []
    ensures r.Some? ==> r.value == reports[|reports| - 1]
  {
    if reports == [] then None else Some(reports[|reports| - 1])
  }
}
