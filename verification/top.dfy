/** The `top -b` output parser of top.py: `get_top_time` reads the clock out of
    the `top - HH:MM:SS up N days, H:MM` header, `parse_top_output` scans one
    block of lines into process rows, and `stream_top_output_to_jsonl` repeats
    that until a block comes back empty or a parse fails.

    The input file is the sequence of strings successive `readline()` calls
    return, `""` meaning nothing was read (end of file, or no data yet when
    following). Digits are the ASCII digits; `\d` in the source's regex would also
    accept other Unicode decimal digits. */
module TopParser {
  import opened Wrappers
  import opened Text

  /** A naive `datetime`. */
  datatype DateTime = DateTime(year: int, month: int, day: int,
                               hour: nat, minute: nat, second: nat, microsecond: nat)

  datatype TopError =
    | Unmatched(line: string)   // returned Err: the header regex did not match
    | BadInt(line: string)      // ValueError raised by int('') on an empty day count
    | BadClock(line: string)    // ValueError raised by datetime() on hour > 23 etc.
    | ShortRow(line: string)    // returned Err: a row with fewer than 12 fields
    | NoCreationTime            // returned Err: the input's creation time is unreadable

  // ---------------------------------------------------------------------------
  // The header regex  r'top - (\d{2}):(\d{2}):(\d{2}) up (\d*) days, *(\d{1,2}):(\d{2})'
  // matched with re.match (anchored at the start only), written as a parser.
  // No backtracking is needed: each greedy piece is followed by a character it
  // cannot consume, so giving back a character can never lead to a match.

  /** The six groups of a match. */
  datatype Groups = Groups(hour: string, minute: string, second: string,
                           days: string, upHour: string, upMinute: string)

  function Spaces(n: nat): (s: string)
    ensures |s| == n && forall i :: 0 <= i < n ==> s[i] == ' '
  {
    if n == 0 then [] else [' '] + Spaces(n - 1)
  }

  function Lit(s: string, lit: string): (r: Option<string>)
    ensures r.Some? <==> StartsWith(s, lit)
    ensures r.Some? ==> s == lit + r.value
  {
    if StartsWith(s, lit) then Some(s[|lit|..]) else None
  }

  /** `\d{2}` */
  function TwoDigits(s: string): (r: Option<(string, string)>)
    ensures r.Some? <==> |s| >= 2 && IsDigit(s[0]) && IsDigit(s[1])
    ensures r.Some? ==> |r.value.0| == 2 && AllDigits(r.value.0) && s == r.value.0 + r.value.1
  {
    if |s| >= 2 && IsDigit(s[0]) && IsDigit(s[1]) then Some((s[..2], s[2..])) else None
  }

  /** `\d*`, greedy. */
  function DigitRun(s: string): (r: (string, string))
    ensures AllDigits(r.0) && s == r.0 + r.1
    ensures r.1 == [] || !IsDigit(r.1[0])
  {
    if s != [] && IsDigit(s[0]) then
      var t := DigitRun(s[1..]);
      assert s == [s[0]] + t.0 + t.1;
      ([s[0]] + t.0, t.1)
    else ([], s)
  }

  /** ` *`, greedy; the result is the number of spaces and what follows them. */
  function SpaceRun(s: string): (r: (nat, string))
    ensures s == Spaces(r.0) + r.1
    ensures r.1 == [] || r.1[0] != ' '
  {
    if s != [] && s[0] == ' ' then
      var t := SpaceRun(s[1..]);
      (t.0 + 1, t.1)
    else (0, s)
  }

  /** `\d{1,2}`, greedy. */
  function UpHour(s: string): (r: Option<(string, string)>)
    ensures r.Some? <==> s != [] && IsDigit(s[0])
    ensures r.Some? ==> 1 <= |r.value.0| <= 2 && AllDigits(r.value.0) && s == r.value.0 + r.value.1
    ensures r.Some? && |r.value.0| == 1 ==> r.value.1 == [] || !IsDigit(r.value.1[0])
  {
    if |s| >= 2 && IsDigit(s[0]) && IsDigit(s[1]) then Some((s[..2], s[2..]))
    else if s != [] && IsDigit(s[0]) then Some((s[..1], s[1..]))
    else None
  }

  function MatchHeader(line: string): (r: Option<Groups>)
    ensures r.Some? ==> WellShaped(r.value)
  {
    var s1 :- Lit(line, "top - ");
    var p1 :- TwoDigits(s1);
    var s2 :- Lit(p1.1, ":");
    var p2 :- TwoDigits(s2);
    var s3 :- Lit(p2.1, ":");
    var p3 :- TwoDigits(s3);
    var s4 :- Lit(p3.1, " up ");
    var p4 := DigitRun(s4);
    var s5 :- Lit(p4.1, " days,");
    var p5 := SpaceRun(s5);
    var p6 :- UpHour(p5.1);
    var s7 :- Lit(p6.1, ":");
    var p7 :- TwoDigits(s7);
    Some(Groups(p1.0, p2.0, p3.0, p4.0, p6.0, p7.0))
  }

  /** Groups the regex can capture. */
  predicate WellShaped(g: Groups) {
    && |g.hour| == 2 && AllDigits(g.hour)
    && |g.minute| == 2 && AllDigits(g.minute)
    && |g.second| == 2 && AllDigits(g.second)
    && AllDigits(g.days)
    && 1 <= |g.upHour| <= 2 && AllDigits(g.upHour)
    && |g.upMinute| == 2 && AllDigits(g.upMinute)
  }

  /** The text the regex describes, with `spaces` blanks before the uptime hours
      and anything at all after the match. */
  function Render(g: Groups, spaces: nat, rest: string): string {
    "top - " + (g.hour + (":" + (g.minute + (":" + (g.second + (" up " + (g.days
      + (" days," + (Spaces(spaces) + (g.upHour + (":" + (g.upMinute + rest))))))))))))
  }

  /** Every match is the regex's text: the groups are well shaped and the line
      starts with them laid out as the pattern says. */
  lemma MatchHeaderSound(line: string)
    requires MatchHeader(line).Some?
    ensures WellShaped(MatchHeader(line).value)
    ensures exists n: nat, rest :: line == Render(MatchHeader(line).value, n, rest)
  {
    var s1 := Lit(line, "top - ").value;
    var p1 := TwoDigits(s1).value;
    var s2 := Lit(p1.1, ":").value;
    var p2 := TwoDigits(s2).value;
    var s3 := Lit(p2.1, ":").value;
    var p3 := TwoDigits(s3).value;
    var s4 := Lit(p3.1, " up ").value;
    var p4 := DigitRun(s4);
    var s5 := Lit(p4.1, " days,").value;
    var p5 := SpaceRun(s5);
    var p6 := UpHour(p5.1).value;
    var s7 := Lit(p6.1, ":").value;
    var p7 := TwoDigits(s7).value;
    assert line == Render(MatchHeader(line).value, p5.0, p7.1);
  }

  lemma LitPrefix(lit: string, rest: string)
    ensures Lit(lit + rest, lit) == Some(rest)
  {
    assert (lit + rest)[..|lit|] == lit;
    assert (lit + rest)[|lit|..] == rest;
  }

  lemma {:induction false} DigitRunStopsAt(d: string, rest: string)
    requires AllDigits(d) && (rest == [] || !IsDigit(rest[0]))
    ensures DigitRun(d + rest) == (d, rest)
  {
    if d != [] {
      var s := d + rest;
      assert s[0] == d[0] && IsDigit(s[0]);
      assert s[1..] == d[1..] + rest;
      DigitRunStopsAt(d[1..], rest);
      assert DigitRun(s) == ([s[0]] + d[1..], rest);
      assert [d[0]] + d[1..] == d;
    } else {
      assert d + rest == rest;
    }
  }

  lemma {:induction false} SpaceRunStopsAt(n: nat, rest: string)
    requires rest == [] || rest[0] != ' '
    ensures SpaceRun(Spaces(n) + rest) == (n, rest)
  {
    if n > 0 {
      var s := Spaces(n) + rest;
      assert Spaces(n) == [' '] + Spaces(n - 1);
      assert s[0] == ' ';
      assert s[1..] == Spaces(n - 1) + rest;
      SpaceRunStopsAt(n - 1, rest);
      assert SpaceRun(s) == (n - 1 + 1, rest);
    } else {
      assert Spaces(n) + rest == rest;
    }
  }

  lemma TwoDigitsTake(d: string, rest: string)
    requires |d| == 2 && AllDigits(d)
    ensures TwoDigits(d + rest) == Some((d, rest))
  {
    assert (d + rest)[..2] == d;
    assert (d + rest)[2..] == rest;
  }

  lemma UpHourTake(d: string, rest: string)
    requires 1 <= |d| <= 2 && AllDigits(d)
    requires |d| == 1 ==> rest == [] || !IsDigit(rest[0])
    ensures UpHour(d + rest) == Some((d, rest))
  {
    assert (d + rest)[..|d|] == d;
    assert (d + rest)[|d|..] == rest;
  }

  /** Every text the regex describes is matched, with exactly its groups. */
  lemma MatchHeaderComplete(g: Groups, n: nat, rest: string)
    requires WellShaped(g)
    ensures MatchHeader(Render(g, n, rest)) == Some(g)
  {
    var t7 := g.upMinute + rest;
    var s7 := ":" + t7;
    var t6 := g.upHour + s7;
    var s5 := Spaces(n) + t6;
    var t4 := " days," + s5;
    var s4 := g.days + t4;
    var t3 := " up " + s4;
    var s3 := g.second + t3;
    var t2 := ":" + s3;
    var s2 := g.minute + t2;
    var t1 := ":" + s2;
    var s1 := g.hour + t1;
    assert Render(g, n, rest) == "top - " + s1;
    LitPrefix("top - ", s1);
    TwoDigitsTake(g.hour, t1);
    LitPrefix(":", s2);
    TwoDigitsTake(g.minute, t2);
    LitPrefix(":", s3);
    TwoDigitsTake(g.second, t3);
    LitPrefix(" up ", s4);
    DigitRunStopsAt(g.days, t4);
    LitPrefix(" days,", s5);
    SpaceRunStopsAt(n, t6);
    UpHourTake(g.upHour, s7);
    LitPrefix(":", t7);
    TwoDigitsTake(g.upMinute, rest);
  }

  // ---------------------------------------------------------------------------
  // get_top_time

  function ClockOk(hour: nat, minute: nat, second: nat): bool {
    hour <= 23 && minute <= 59 && second <= 59
  }

  /** `get_top_time(base, line)`: the base date with the header's clock, at
      microsecond 0. The day count is converted with `int` although unused, so an
      empty one raises; an out-of-range clock makes `datetime` raise. */
  function GetTopTime(base: DateTime, line: string): (r: Result<DateTime, TopError>)
    ensures r == Err(Unmatched(line)) <==> MatchHeader(line).None?
    ensures r.Ok? <==>
              && MatchHeader(line).Some?
              && MatchHeader(line).value.days != []
              && ClockOk(DigitsValue(MatchHeader(line).value.hour),
                         DigitsValue(MatchHeader(line).value.minute),
                         DigitsValue(MatchHeader(line).value.second))
    ensures r.Ok? ==>
              var g := MatchHeader(line).value;
              r.value == DateTime(base.year, base.month, base.day,
                                  DigitsValue(g.hour), DigitsValue(g.minute), DigitsValue(g.second), 0)
  {
    match MatchHeader(line)
    case None => Err(Unmatched(line))
    case Some(g) =>
      var hour := DigitsValue(g.hour);
      var minute := DigitsValue(g.minute);
      var second := DigitsValue(g.second);
      if g.days == [] then Err(BadInt(line))
      else if !ClockOk(hour, minute, second) then Err(BadClock(line))
      else Ok(DateTime(base.year, base.month, base.day, hour, minute, second, 0))
  }

  /** A header of the regex's shape with a valid clock gives that clock on the base date. */
  lemma GetTopTimeOfHeader(base: DateTime, g: Groups, n: nat, rest: string)
    requires WellShaped(g) && g.days != []
    requires ClockOk(DigitsValue(g.hour), DigitsValue(g.minute), DigitsValue(g.second))
    ensures GetTopTime(base, Render(g, n, rest)) ==
              Ok(DateTime(base.year, base.month, base.day,
                          DigitsValue(g.hour), DigitsValue(g.minute), DigitsValue(g.second), 0))
  {
    MatchHeaderComplete(g, n, rest);
  }

  /** A matched header has its day count, digits only, right after the 18
      characters `top - HH:MM:SS up `, followed by ` days,`. */
  lemma MatchHeaderHasDays(line: string) returns (j: int)
    requires MatchHeader(line).Some?
    ensures 18 <= j && j + 6 <= |line|
    ensures AllDigits(line[18..j]) && line[j..j + 6] == " days,"
  {
    var s1 := Lit(line, "top - ").value;
    var p1 := TwoDigits(s1).value;
    var s2 := Lit(p1.1, ":").value;
    var p2 := TwoDigits(s2).value;
    var s3 := Lit(p2.1, ":").value;
    var p3 := TwoDigits(s3).value;
    var s4 := Lit(p3.1, " up ").value;
    var p4 := DigitRun(s4);
    var s5 := Lit(p4.1, " days,").value;
    assert line[0..] == line;
    DropPrefix(line, 0, "top - ", s1);
    DropPrefix(line, 6, p1.0, p1.1);
    DropPrefix(line, 8, ":", s2);
    DropPrefix(line, 9, p2.0, p2.1);
    DropPrefix(line, 11, ":", s3);
    DropPrefix(line, 12, p3.0, p3.1);
    DropPrefix(line, 14, " up ", s4);
    assert line[18..] == p4.0 + p4.1;
    j := 18 + |p4.0|;
    TakePrefix(line, 18, p4.0, p4.1);
    DropPrefix(line, 18, p4.0, p4.1);
    TakePrefix(line, j, " days,", s5);
  }

  lemma DropPrefix(s: string, a: nat, x: string, y: string)
    requires a <= |s| && s[a..] == x + y
    ensures a + |x| <= |s| && s[a + |x|..] == y
  {
    assert s[a + |x|..] == s[a..][|x|..];
  }

  lemma TakePrefix(s: string, a: nat, x: string, y: string)
    requires a <= |s| && s[a..] == x + y
    ensures a + |x| <= |s| && s[a..a + |x|] == x
  {
    assert s[a..a + |x|] == s[a..][..|x|];
  }

  lemma FirstDigit(line: string, j: int)
    requires 18 < j <= |line| && AllDigits(line[18..j])
    ensures IsDigit(line[18])
  {
    assert line[18..j][0] == line[18];
  }

  /** A run of digits starting at the uptime's hours stops inside them or at
      the colon after them. */
  lemma DigitsStopInClock(line: string, j: int, h: string, rest: string)
    requires 1 <= |h| <= 2 && AllDigits(h)
    requires |line| >= 18 && line[18..] == h + ":" + rest
    requires 18 <= j < |line| && AllDigits(line[18..j])
    ensures line[j] == ':' || IsDigit(line[j])
  {
    var u := h + ":" + rest;
    assert line[18 + |h|] == u[|h|] == ':' by {
      assert line[18..][|h|] == line[18 + |h|];
    }
    if j - 18 > |h| {
      assert false;
    } else if j - 18 < |h| {
      assert line[18..][j - 18] == line[j];
      assert u[j - 18] == h[j - 18];
    }
  }

  /** After `up `, blanks, one or two digits and a colon leave no room for the
      regex's `\d* days,`. */
  lemma NoDaysAfterClock(line: string, j: int, k: nat, h: string, rest: string)
    requires 1 <= |h| <= 2 && AllDigits(h)
    requires |line| >= 18 && line[18..] == Spaces(k) + h + ":" + rest
    requires 18 <= j && j + 6 <= |line| && AllDigits(line[18..j])
    ensures line[j..j + 6] != " days,"
  {
    var u := Spaces(k) + h + ":" + rest;
    assert forall i :: 0 <= i < |u| ==> line[18 + i] == u[i] by {
      forall i | 0 <= i < |u| ensures line[18 + i] == u[i] {
        assert line[18..][i] == line[18 + i];
      }
    }
    assert line[j..j + 6][0] == line[j] && line[j..j + 6][1] == line[j + 1];
    if j > 18 {
      FirstDigit(line, j);
      DigitsStopInClock(line, j, h, rest);
    } else if k == 1 {
      assert u[1] == h[0];
    } else {
      assert u[1] == ' ';
    }
  }

  /** A line with no digits after position 18 followed by ` days,` is not a header. */
  lemma NoDaysUnmatched(base: DateTime, line: string)
    requires forall j :: 18 <= j && j + 6 <= |line| && AllDigits(line[18..j]) ==> line[j..j + 6] != " days,"
    ensures GetTopTime(base, line) == Err(Unmatched(line))
  {
    if MatchHeader(line).Some? {
      var j := MatchHeaderHasDays(line);
      assert false;
    }
  }

  /** Under a day of uptime `top` prints `up H:MM` with the hours right-aligned
      (any number of blanks, one or two digits, then a colon), with no day
      count: whatever the clock and whatever follows, the regex does not match. */
  lemma ShortUptimeUnmatched(base: DateTime, clock: string, k: nat, h: string, rest: string)
    requires |clock| == 8 && 1 <= |h| <= 2 && AllDigits(h)
    ensures var line := "top - " + clock + " up " + Spaces(k) + h + ":" + rest;
      GetTopTime(base, line) == Err(Unmatched(line))
  {
    var line := "top - " + clock + " up " + Spaces(k) + h + ":" + rest;
    assert line[18..] == Spaces(k) + h + ":" + rest;
    forall j | 18 <= j && j + 6 <= |line| && AllDigits(line[18..j])
      ensures line[j..j + 6] != " days,"
    {
      NoDaysAfterClock(line, j, k, h, rest);
    }
    NoDaysUnmatched(base, line);
  }

  /** At exactly one day of uptime `top` prints `up 1 day,`: whatever the clock
      and whatever follows, the regex does not match. */
  lemma OneDayUptimeUnmatched(base: DateTime, clock: string, rest: string)
    requires |clock| == 8
    ensures var line := "top - " + clock + " up 1 day," + rest;
      GetTopTime(base, line) == Err(Unmatched(line))
  {
    var line := "top - " + clock + " up 1 day," + rest;
    assert line[18] == '1' && line[19] == ' ' && line[23] == ',';
    forall j | 18 <= j && j + 6 <= |line| && AllDigits(line[18..j])
      ensures line[j..j + 6] != " days,"
    {
      assert line[j..j + 6][0] == line[j] && line[j..j + 6][4] == line[j + 4];
    }
    NoDaysUnmatched(base, line);
  }

  // ---------------------------------------------------------------------------
  // parse_top_output

  /** One process row. */
  datatype Process = Process(
    pid: string, user: string, pr: string, ni: string, virt: string, res: string,
    shr: string, state: string, cpu: string, mem: string, time: string,
    command: string, unixtime: Option<DateTime>, key: string)

  function MakeRow(parts: seq<string>, t: Option<DateTime>): Process
    requires |parts| >= 12
  {
    var command := Join(parts[11..], " ");
    Process(parts[0], parts[1], parts[2], parts[3], parts[4], parts[5], parts[6],
            parts[7], parts[8], parts[9], parts[10], command, t, parts[0] + " " + command)
  }

  /** What a row looks like: eleven single-word columns, a command of at least one
      word whose words are its fields 11.., and `key == PID + " " + COMMAND`. */
  predicate RowShape(p: Process) {
    && IsWord(p.pid) && IsWord(p.user) && IsWord(p.pr) && IsWord(p.ni)
    && IsWord(p.virt) && IsWord(p.res) && IsWord(p.shr) && IsWord(p.state)
    && IsWord(p.cpu) && IsWord(p.mem) && IsWord(p.time)
    && p.command != [] && (forall k :: 0 <= k < |Split(p.command)| ==> IsWord(Split(p.command)[k]))
    && p.key == p.pid + " " + p.command
  }

  /** The fields of a stripped row line, and the row made from them. */
  lemma RowOfLine(line: string, t: Option<DateTime>)
    requires line != [] && !IsSpace(line[|line| - 1])
    requires |Split(Strip(line))| >= 12
    ensures RowShape(MakeRow(Split(Strip(line)), t))
    ensures Split(MakeRow(Split(Strip(line)), t).command) == Split(Strip(line))[11..]
  {
    var s := Strip(line);
    assert RStrip(line) == line;
    assert s != [] && !IsSpace(s[|s| - 1]);
    SplitStrippedIsWords(s);
    var parts := Split(s);
    var tail := parts[11..];
    SplitJoinRoundTrip(tail);
    JoinStartsWithFirst(tail, " ");
  }

  /** The local variables of `parse_top_output` between lines. */
  datatype Scan = Scan(inTable: bool, topTime: Option<DateTime>, rows: seq<Process>)

  predicate RowsShaped(rows: seq<Process>) {
    forall k :: 0 <= k < |rows| ==> RowShape(rows[k])
  }

  /** What one non-empty line does to the scan. */
  datatype Step =
    | Next(st: Scan)          // go on reading
    | EndBlock(rows: seq<Process>)   // the blank line after the table
    | Fail(error: TopError)

  /** The header check at the top of the loop body: a `top -` line resets the
      scan's time, or ends the parse when its time cannot be read. */
  function HeaderStep(line: string, base: DateTime, st: Scan): (r: Result<Scan, TopError>)
    ensures r.Err? <==> StartsWith(line, "top -") && GetTopTime(base, line).Err?
    ensures r.Err? ==> r.error == GetTopTime(base, line).error
    ensures r.Ok? ==> r.value.rows == st.rows && r.value.inTable == st.inTable
    ensures r.Ok? ==> r.value.topTime == (if StartsWith(line, "top -") then Some(GetTopTime(base, line).value) else st.topTime)
  {
    if !StartsWith(line, "top -") then Ok(st)
    else
      var t :- GetTopTime(base, line);
      Ok(st.(topTime := Some(t)))
  }

  /** The rest of the loop body: the column header, lines before it, the blank
      line that ends the table, and process rows. */
  function TableStep(line: string, st: Scan): (r: Step)
    requires line == RStrip(line) && RowsShaped(st.rows)
    ensures r.Fail? ==> r.error == ShortRow(line) && st.inTable && |Split(Strip(line))| < 12
    ensures r.EndBlock? <==> st.inTable && !StartsWith(line, "  PID") && line == []
    ensures r.EndBlock? ==> r.rows == st.rows
    ensures r.Next? ==>
              && RowsShaped(r.st.rows)
              && |st.rows| <= |r.st.rows| <= |st.rows| + 1
              && r.st.rows[..|st.rows|] == st.rows
              && (|r.st.rows| > |st.rows| ==> r.st.rows[|st.rows|].unixtime == st.topTime)
              && r.st.inTable == (st.inTable || StartsWith(line, "  PID"))
              && r.st.topTime == st.topTime
    ensures !st.inTable && !StartsWith(line, "  PID") ==> r == Next(st)
    ensures st.inTable && !StartsWith(line, "  PID") && line != [] && |Split(Strip(line))| < 12 ==>
              r == Fail(ShortRow(line))
  {
    if StartsWith(line, "  PID") then Next(st.(inTable := true))
    else if !st.inTable then Next(st)
    else if line == [] then EndBlock(st.rows)
    else
      var parts := Split(Strip(line));
      if |parts| < 12 then Fail(ShortRow(line))
      else
        RowOfLine(line, st.topTime);
        Next(st.(rows := st.rows + [MakeRow(parts, st.topTime)]))
  }

  /** One iteration of the loop body, on a line already stripped on the right. */
  function ScanLine(line: string, base: DateTime, st: Scan): (r: Step)
    requires line == RStrip(line) && RowsShaped(st.rows)
    ensures r.EndBlock? ==> r.rows == st.rows
    ensures r.Next? ==> RowsShaped(r.st.rows) && |st.rows| <= |r.st.rows| && r.st.rows[..|st.rows|] == st.rows
  {
    match HeaderStep(line, base, st)
    case Err(e) => Fail(e)
    case Ok(st1) => TableStep(line, st1)
  }

  datatype Parse =
    | Parsed(rows: seq<Process>, rest: seq<string>)   // returned Ok(rows); `rest` is still unread
    | Failed(error: TopError)
    | Waiting(rows: seq<Process>)                      // following, and no more data has come

  predicate IsTopLine(raw: string) {
    StartsWith(RStrip(raw), "top -")
  }

  /** The `while True` loop of `parse_top_output`, from scan state `st`. An empty
      read ends the block unless following, when it is retried. */
  function ScanLines(input: seq<string>, base: DateTime, follow: bool, st: Scan): (r: Parse)
    requires RowsShaped(st.rows)
    ensures r.Parsed? ==> |r.rest| <= |input| && r.rest == input[|input| - |r.rest|..]
    ensures r.Parsed? && input != [] ==> |r.rest| < |input|
    ensures (r.Parsed? || r.Waiting?) ==> |st.rows| <= |r.rows| && r.rows[..|st.rows|] == st.rows
    ensures (r.Parsed? || r.Waiting?) ==> RowsShaped(r.rows)
    ensures !follow ==> !r.Waiting?
    decreases |input|
  {
    if input == [] then
      if follow then Waiting(st.rows) else Parsed(st.rows, [])
    else if input[0] == "" then
      if follow then ScanLines(input[1..], base, follow, st) else Parsed(st.rows, input[1..])
    else
      match ScanLine(RStrip(input[0]), base, st)
      case Fail(e) => Failed(e)
      case EndBlock(rows) => Parsed(rows, input[1..])
      case Next(st1) =>
        var r := ScanLines(input[1..], base, follow, st1);
        ScanLinesStep(input, st.rows, st1.rows, r);
        r
  }

  /** The contract of `ScanLines` carries over one line read into a state
      that extended the rows. */
  lemma ScanLinesStep(input: seq<string>, rows: seq<Process>, rows1: seq<Process>, r: Parse)
    requires input != [] && |rows| <= |rows1| && rows1[..|rows|] == rows
    requires r.Parsed? ==> |r.rest| <= |input[1..]| && r.rest == input[1..][|input[1..]| - |r.rest|..]
    requires (r.Parsed? || r.Waiting?) ==> |rows1| <= |r.rows| && r.rows[..|rows1|] == rows1
    ensures r.Parsed? ==> |r.rest| < |input| && r.rest == input[|input| - |r.rest|..]
    ensures (r.Parsed? || r.Waiting?) ==> |rows| <= |r.rows| && r.rows[..|rows|] == rows
  {
    if r.Parsed? || r.Waiting? {
      assert r.rows[..|rows|] == r.rows[..|rows1|][..|rows|];
    }
  }

  /** `parse_top_output(f, base_datetime, follow)`. */
  function ParseTopOutput(input: seq<string>, base: DateTime, follow: bool): Parse {
    ScanLines(input, base, follow, Scan(false, None, []))
  }

  /** Every row is stamped with the time of the latest `top -` header before it:
      with no header among the lines read, new rows carry the scan's time. */
  lemma {:induction false} RowsCarryScanTime(input: seq<string>, base: DateTime, follow: bool, st: Scan)
    requires RowsShaped(st.rows)
    requires forall k :: 0 <= k < |input| ==> !IsTopLine(input[k])
    ensures var r := ScanLines(input, base, follow, st);
      (r.Parsed? || r.Waiting?) ==> forall k :: |st.rows| <= k < |r.rows| ==> r.rows[k].unixtime == st.topTime
    decreases |input|
  {
    if input != [] {
      if input[0] == "" {
        RowsCarryScanTime(input[1..], base, follow, st);
      } else {
        var line := RStrip(input[0]);
        assert !IsTopLine(input[0]);
        assert HeaderStep(line, base, st) == Ok(st);
        var s := TableStep(line, st);
        if s.Next? {
          assert forall k :: 0 <= k < |input[1..]| ==> !IsTopLine(input[1..][k]);
          RowsCarryScanTime(input[1..], base, follow, s.st);
          var r := ScanLines(input[1..], base, follow, s.st);
          assert ScanLines(input, base, follow, st) == r;
          if r.Parsed? || r.Waiting? {
            CarryStep(st.rows, s.st.rows, r.rows, st.topTime);
          }
        }
      }
    }
  }

  lemma CarryStep(rows: seq<Process>, rows1: seq<Process>, rows2: seq<Process>, t: Option<DateTime>)
    requires |rows| <= |rows1| <= |rows| + 1
    requires |rows1| > |rows| ==> rows1[|rows|].unixtime == t
    requires |rows1| <= |rows2| && rows2[..|rows1|] == rows1
    requires forall k :: |rows1| <= k < |rows2| ==> rows2[k].unixtime == t
    ensures forall k :: |rows| <= k < |rows2| ==> rows2[k].unixtime == t
  {
    forall k | |rows| <= k < |rows2|
      ensures rows2[k].unixtime == t
    {
      if k < |rows1| {
        assert rows2[k] == rows2[..|rows1|][k];
      }
    }
  }

  /** Lines before the `  PID` header produce no row. */
  lemma {:induction false} NoRowsBeforeHeader(input: seq<string>, base: DateTime, follow: bool, st: Scan)
    requires !st.inTable && RowsShaped(st.rows)
    requires forall k :: 0 <= k < |input| ==> !StartsWith(RStrip(input[k]), "  PID")
    ensures var r := ScanLines(input, base, follow, st);
      (r.Parsed? || r.Waiting?) ==> r.rows == st.rows
    decreases |input|
  {
    if input != [] {
      if input[0] == "" {
        NoRowsBeforeHeader(input[1..], base, follow, st);
      } else {
        var s := ScanLine(RStrip(input[0]), base, st);
        if s.Next? {
          NoRowsBeforeHeader(input[1..], base, follow, s.st);
        }
      }
    }
  }

  /** Inside the table a blank line ends the block, returning the rows so far and
      leaving the following lines unread. */
  lemma BlankLineEndsBlock(input: seq<string>, base: DateTime, follow: bool, st: Scan)
    requires st.inTable && RowsShaped(st.rows)
    requires input != [] && input[0] != "" && RStrip(input[0]) == ""
    ensures ScanLines(input, base, follow, st) == Parsed(st.rows, input[1..])
  {
    assert !StartsWith(RStrip(input[0]), "top -");
    assert !StartsWith(RStrip(input[0]), "  PID");
  }

  /** Without follow, an empty read (end of file) ends the parse with the rows
      gathered so far. */
  lemma EndOfFileEndsParse(input: seq<string>, base: DateTime, st: Scan)
    requires RowsShaped(st.rows)
    requires input != [] && input[0] == ""
    ensures ScanLines(input, base, false, st) == Parsed(st.rows, input[1..])
  {
  }

  /** Inside the table, a line that is not a header and has fewer than 12
      whitespace-separated fields fails the whole parse. */
  lemma ShortRowFails(input: seq<string>, base: DateTime, follow: bool, st: Scan)
    requires st.inTable && RowsShaped(st.rows)
    requires input != [] && RStrip(input[0]) != []
    requires !StartsWith(RStrip(input[0]), "top -") && !StartsWith(RStrip(input[0]), "  PID")
    requires |Split(Strip(RStrip(input[0])))| < 12
    ensures ScanLines(input, base, follow, st) == Failed(ShortRow(RStrip(input[0])))
  {
    assert input[0] != "";
    ShortRowLine(RStrip(input[0]), base, st);
  }

  lemma ShortRowLine(line: string, base: DateTime, st: Scan)
    requires st.inTable && RowsShaped(st.rows) && line == RStrip(line) && line != []
    requires !StartsWith(line, "top -") && !StartsWith(line, "  PID")
    requires |Split(Strip(line))| < 12
    ensures ScanLine(line, base, st) == Fail(ShortRow(line))
  {
    assert HeaderStep(line, base, st) == Ok(st);
    assert TableStep(line, st) == Fail(ShortRow(line));
  }

  /** A header whose time cannot be read ends the parse with that error. */
  lemma BadHeaderFails(input: seq<string>, base: DateTime, follow: bool, st: Scan)
    requires RowsShaped(st.rows)
    requires input != [] && input[0] != "" && IsTopLine(input[0]) && GetTopTime(base, RStrip(input[0])).Err?
    ensures ScanLines(input, base, follow, st) == Failed(GetTopTime(base, RStrip(input[0])).error)
  {
    var s := ScanLine(RStrip(input[0]), base, st);
    assert s.Fail?;
  }

  // ---------------------------------------------------------------------------
  // stream_top_output_to_jsonl

  datatype StreamOutcome =
    | Finished(blocks: seq<seq<Process>>)                    // returned Ok(())
    | Aborted(blocks: seq<seq<Process>>, error: TopError)    // the first failure, after writing `blocks`
    | Suspended(blocks: seq<seq<Process>>)                   // following, waiting for data

  /** The block loop: each non-empty block is written out as one JSON line, and
      the first empty block ends the stream. */
  function StreamBlocks(input: seq<string>, base: DateTime, follow: bool, written: seq<seq<Process>>): (r: StreamOutcome)
    ensures |written| <= |r.blocks| && r.blocks[..|written|] == written
    ensures forall k :: |written| <= k < |r.blocks| ==> r.blocks[k] != [] && RowsShaped(r.blocks[k])
    ensures |r.blocks| - |written| <= |input|
    ensures !follow ==> !r.Suspended?
    decreases |input|
  {
    match ParseTopOutput(input, base, follow)
    case Failed(e) => Aborted(written, e)
    case Waiting(_) => Suspended(written)
    case Parsed(rows, rest) =>
      if rows == [] then Finished(written)
      else
        var r := StreamBlocks(rest, base, follow, written + [rows]);
        StreamBlocksStep(written, rows, r.blocks);
        r
  }

  lemma StreamBlocksStep(written: seq<seq<Process>>, rows: seq<Process>, blocks: seq<seq<Process>>)
    requires rows != [] && RowsShaped(rows)
    requires |written + [rows]| <= |blocks| && blocks[..|written + [rows]|] == written + [rows]
    requires forall k :: |written + [rows]| <= k < |blocks| ==> blocks[k] != [] && RowsShaped(blocks[k])
    ensures |written| <= |blocks| && blocks[..|written|] == written
    ensures forall k :: |written| <= k < |blocks| ==> blocks[k] != [] && RowsShaped(blocks[k])
  {
    assert blocks[..|written|] == (written + [rows])[..|written|];
    assert blocks[|written|] == rows;
  }

  /** `stream_top_output_to_jsonl`, given the input's creation time if readable. */
  function StreamTopOutput(input: seq<string>, creation: Option<DateTime>, follow: bool): (r: StreamOutcome)
    ensures forall k :: 0 <= k < |r.blocks| ==> r.blocks[k] != [] && RowsShaped(r.blocks[k])
    ensures creation.None? ==> r == Aborted([], NoCreationTime)
    ensures !follow ==> !r.Suspended?
  {
    if creation.None? then Aborted([], NoCreationTime) else StreamBlocks(input, creation.value, follow, [])
  }

  /** The first parse failure ends the stream, carried unchanged. */
  lemma FirstFailureStops(input: seq<string>, base: DateTime, follow: bool, e: TopError)
    requires ParseTopOutput(input, base, follow) == Failed(e)
    ensures StreamTopOutput(input, Some(base), follow) == Aborted([], e)
  {
  }

  /** A first block with rows is written, and the stream goes on after it. */
  lemma FirstBlockWritten(input: seq<string>, base: DateTime, follow: bool)
    requires ParseTopOutput(input, base, follow).Parsed?
    requires ParseTopOutput(input, base, follow).rows != []
    ensures var p := ParseTopOutput(input, base, follow);
      StreamTopOutput(input, Some(base), follow) == StreamBlocks(p.rest, base, follow, [p.rows])
  {
    var p := ParseTopOutput(input, base, follow);
    assert [] + [p.rows] == [p.rows];
  }
}
