/**
 Slurm durations: the printer of internal/slurm/details.go, the parser of
 internal/slurm/resource_usage.go, and the sum of CPU times over the steps of a job.
 */
module Durations {
  import opened Wrappers
  import opened Int64
  import opened Text
  import opened Decimal

  datatype SlurmNumber = SlurmNumber(isSet: bool, infinite: bool, number: int64)

  function Pad2(n: nat): string {
    if n < 10 then "0" + Print(n) else Print(n)
  }

  function FormatSlurmDuration(seconds: nat): string {
    var days, hours, minutes, rest := seconds / 86400, seconds % 86400 / 3600, seconds % 3600 / 60, seconds % 60;
    if days > 0 then Print(days) + "-" + Pad2(hours) + ":" + Pad2(minutes) + ":" + Pad2(rest)
    else if hours > 0 then Print(hours) + ":" + Pad2(minutes) + ":" + Pad2(rest)
    else Print(minutes) + ":" + Pad2(rest)
  }

  function FormatElapsed(value: SlurmNumber, now: int64): string {
    if !value.isSet || value.infinite || value.number <= 0 || value.number > now then "—"
    else FormatSlurmDuration(now - value.number)
  }

  function FormatTimeLimit(value: SlurmNumber): string {
    if value.infinite then "UNLIMITED"
    else if !value.isSet || value.number < 0 || value.number > MAX_INT64 / 60 then "—"
    else FormatSlurmDuration(value.number * 60)
  }

  // ---------------------------------------------------------------------------------------
  // Parsing.

  datatype Clock = Clock(days: nat, hours: nat, minutes: nat, seconds: nat)

  predicate Unavailable(value: string) {
    value == "" || EqualFold(value, "N/A") || EqualFold(value, "Unknown")
  }

  function NonNegativeInt(s: string): Option<nat> {
    var n := ParseInt(s);
    if n.None? || n.value < 0 then None else Some(n.value)
  }

  /** The fields of `[days-][hours:]minutes:seconds`, if the text has that shape. */
  function ReadClock(value: string): Option<Clock> {
    var dayParts := Split(value, '-');
    if |dayParts| > 2 then None
    else
      var days := if |dayParts| == 2 then NonNegativeInt(dayParts[0]) else Some(0);
      var parts := Split(dayParts[|dayParts| - 1], ':');
      if days.None? || |parts| < 2 || |parts| > 3 then None
      else
        var hours := if |parts| == 3 then NonNegativeInt(parts[0]) else Some(0);
        var minutes, seconds := NonNegativeInt(parts[|parts| - 2]), NonNegativeInt(parts[|parts| - 1]);
        if hours.None? || minutes.None? || seconds.None? then None
        else Some(Clock(days.value, hours.value, minutes.value, seconds.value))
  }

  function ClockSeconds(c: Clock): nat {
    c.days * 86400 + c.hours * 3600 + c.minutes * 60 + c.seconds
  }

  /** What a duration means, over the unbounded integers. */
  function Meaning(value: string): Option<nat> {
    var text := TrimSpace(value);
    if Unavailable(text) then Some(0)
    else
      var c := ReadClock(text);
      if c.Some? && c.value.minutes < 60 && c.value.seconds < 60 then Some(ClockSeconds(c.value)) else None
  }

  datatype Error = Invalid | OutOfRange | BadRow | WrongJob | BadStep | TooManySteps | LineTooLong

  method ParseParts(parts: seq<string>) returns (r: Result<seq<int64>, Error>)
    ensures r.Ok? <==> forall i | 0 <= i < |parts| :: NonNegativeInt(parts[i]).Some?
    ensures r.Ok? ==>
      |r.value| == |parts| && forall i | 0 <= i < |parts| :: Some(r.value[i]) == NonNegativeInt(parts[i])
  {
    var values: seq<int64> := seq(|parts|, _ => 0);
    for i := 0 to |parts|
      invariant |values| == |parts|
      invariant forall j | 0 <= j < i :: Some(values[j]) == NonNegativeInt(parts[j])
    {
      var n := ParseInt(parts[i]);
      if n.None? || n.value < 0 {
        return Err(Invalid);
      }
      values := values[i := n.value];
    }
    return Ok(values);
  }

  /** The parser returns the exact number of seconds, and rejects a well-formed duration exactly
      when it does not fit 64 bits or its minutes or seconds reach 60. */
  method ParseSstatDuration(input: string) returns (r: Result<int64, Error>)
    ensures r.Ok? <==> Meaning(input).Some? && Meaning(input).value <= MAX_INT64
    ensures r.Ok? ==> r.value == Meaning(input).value
  {
    var value := TrimSpace(input);
    if Unavailable(value) {
      return Ok(0);
    }
    hide ReadClock, Unavailable, TrimSpace, ClockSeconds;
    r := ParseClock(value);
  }

  method ParseClock(value: string) returns (r: Result<int64, Error>)
    ensures var c := ReadClock(value);
      if c.Some? && c.value.minutes < 60 && c.value.seconds < 60 && ClockSeconds(c.value) <= MAX_INT64
      then r == Ok(ClockSeconds(c.value)) else r.Err?
  {
    hide Split, ParseInt, ClockSeconds;
    var dayParts := Split(value, '-');
    if |dayParts| > 2 {
      return Err(Invalid);
    }
    var days: int64 := 0;
    var timePart := dayParts[0];
    if |dayParts| == 2 {
      var d := ParseInt(dayParts[0]);
      if d.None? || d.value < 0 {
        return Err(Invalid);
      }
      days := d.value;
      timePart := dayParts[1];
    }
    var parts := Split(timePart, ':');
    if |parts| < 2 || |parts| > 3 {
      return Err(Invalid);
    }
    var values := ParseParts(parts);
    if values.Err? {
      return Err(values.error);
    }
    var hours: int64, minutes, seconds := 0, values.value[0], values.value[1];
    if |parts| == 3 {
      hours, minutes, seconds := values.value[0], values.value[1], values.value[2];
    }
    assert ReadClock(value) == Some(Clock(days, hours, minutes, seconds));
    r := ExactSeconds(days, hours, minutes, seconds);
  }

  /** The range checks and the sum at the end of the parser; no step of it wraps. */
  method ExactSeconds(days: int64, hours: int64, minutes: int64, seconds: int64) returns (r: Result<int64, Error>)
    requires days >= 0 && hours >= 0 && minutes >= 0 && seconds >= 0
    ensures var exact := ClockSeconds(Clock(days, hours, minutes, seconds));
      if minutes < 60 && seconds < 60 && exact <= MAX_INT64 then r == Ok(exact) else r.Err?
  {
    if minutes >= 60 || seconds >= 60 || days > MAX_INT64 / 86400 || hours > MAX_INT64 / 3600 {
      return Err(Invalid);
    }
    var total: int64 := days * 86400;
    var hourSeconds: int64 := hours * 3600;
    if hourSeconds > MAX_INT64 - total {
      return Err(OutOfRange);
    }
    total := total + hourSeconds;
    var minuteSeconds: int64 := minutes * 60;
    if minutes > (MAX_INT64 - total) / 60 || seconds > MAX_INT64 - total - minuteSeconds {
      return Err(OutOfRange);
    }
    return Ok(total + minuteSeconds + seconds);
  }

  // ---------------------------------------------------------------------------------------
  // Printing and parsing are inverse.

  lemma NumeralIsPlain(s: string, c: char)
    requires AllDigits(s) && !IsDigit(c)
    ensures Without(s, c)
  {
  }

  predicate Reads(text: string, n: nat) {
    text != "" && AllDigits(text) && NonNegativeInt(text) == Some(n)
  }

  lemma ReadPadded(n: nat)
    requires n < 60
    ensures Reads(Pad2(n), n)
  {
    PrintedValue(n);
    LeadingZero(Print(n));
    assert IsDigit(Pad2(n)[0]);
  }

  lemma ReadPrinted(n: nat)
    requires n <= MAX_INT64
    ensures Reads(Print(n), n)
  {
    ParsePrinted(n);
  }

  lemma ReadMinutesSeconds(m: string, s: string)
    requires AllDigits(m) && AllDigits(s)
    ensures Split(m + ":" + s, ':') == [m, s]
  {
    NumeralIsPlain(m, ':');
    NumeralIsPlain(s, ':');
    SplitFirst(m, s, ':');
    SplitWhole(s, ':');
  }

  lemma ReadHours(h: string, m: string, s: string)
    requires AllDigits(h) && AllDigits(m) && AllDigits(s)
    ensures Split(h + ":" + m + ":" + s, ':') == [h, m, s]
  {
    NumeralIsPlain(h, ':');
    ReadMinutesSeconds(m, s);
    SplitFirst(h, m + ":" + s, ':');
    assert h + ":" + m + ":" + s == h + ":" + (m + ":" + s);
  }

  lemma DigitEnds(s: string)
    requires |s| > 0 && IsDigit(s[0]) && IsDigit(s[|s| - 1])
    ensures TrimSpace(s) == s && !Unavailable(s)
  {
  }

  lemma ClockMeaning(text: string, c: Clock)
    requires |text| > 0 && IsDigit(text[0]) && IsDigit(text[|text| - 1])
    requires ReadClock(text) == Some(c) && c.minutes < 60 && c.seconds < 60
    ensures Meaning(text) == Some(ClockSeconds(c))
  {
    DigitEnds(text);
    hide ReadClock, TrimSpace, Unavailable;
  }

  lemma ReadShort(m: string, s: string, minutes: nat, rest: nat)
    requires Reads(m, minutes) && Reads(s, rest) && minutes < 60 && rest < 60
    ensures Meaning(m + ":" + s) == Some(minutes * 60 + rest)
  {
    hide ParseInt, Meaning, Unavailable;
    var text := m + ":" + s;
    ReadMinutesSeconds(m, s);
    assert Without(text, '-');
    SplitWhole(text, '-');
    hide Split;
    ClockMeaning(text, Clock(0, 0, minutes, rest));
  }

  lemma ReadMiddle(h: string, m: string, s: string, hours: nat, minutes: nat, rest: nat)
    requires Reads(h, hours) && Reads(m, minutes) && Reads(s, rest) && minutes < 60 && rest < 60
    ensures Meaning(h + ":" + m + ":" + s) == Some(hours * 3600 + minutes * 60 + rest)
  {
    hide ParseInt, Meaning, Unavailable;
    var text := h + ":" + m + ":" + s;
    ReadHours(h, m, s);
    assert Without(text, '-');
    SplitWhole(text, '-');
    hide Split;
    ClockMeaning(text, Clock(0, hours, minutes, rest));
  }

  /** Sixty minutes or sixty seconds are not a duration. */
  lemma SixtyIsRefused(h: string, m: string, s: string, hours: nat, minutes: nat, rest: nat)
    requires Reads(h, hours) && Reads(m, minutes) && Reads(s, rest) && (minutes >= 60 || rest >= 60)
    ensures Meaning(h + ":" + m + ":" + s) == None
  {
    hide ParseInt, Meaning, Unavailable;
    var text := h + ":" + m + ":" + s;
    ReadHours(h, m, s);
    assert Without(text, '-');
    SplitWhole(text, '-');
    hide Split;
    DigitEnds(text);
    hide TrimSpace;
    ClockIsAll(text, Clock(0, hours, minutes, rest));
  }

  lemma ClockIsAll(text: string, c: Clock)
    requires TrimSpace(text) == text && !Unavailable(text) && ReadClock(text) == Some(c)
    ensures Meaning(text).Some? <==> c.minutes < 60 && c.seconds < 60
  {
    hide ReadClock, TrimSpace, Unavailable;
  }

  lemma ReadLong(d: string, h: string, m: string, s: string, days: nat, hours: nat, minutes: nat, rest: nat)
    requires Reads(d, days) && Reads(h, hours) && Reads(m, minutes) && Reads(s, rest) && minutes < 60 && rest < 60
    ensures Meaning(d + "-" + h + ":" + m + ":" + s) == Some(days * 86400 + hours * 3600 + minutes * 60 + rest)
  {
    hide ParseInt, Meaning, Unavailable;
    var time := h + ":" + m + ":" + s;
    var text := d + "-" + h + ":" + m + ":" + s;
    ReadHours(h, m, s);
    NumeralIsPlain(d, '-');
    assert Without(time, '-');
    assert text == d + "-" + time;
    SplitFirst(d, time, '-');
    SplitWhole(time, '-');
    hide Split;
    ClockMeaning(text, Clock(days, hours, minutes, rest));
  }

  /** Parsing what the printer prints gives back the same seconds. */
  lemma DurationRoundTrip(seconds: nat)
    requires seconds <= MAX_INT64
    ensures Meaning(FormatSlurmDuration(seconds)) == Some(seconds)
  {
    hide Meaning, Print, Pad2, Reads;
    var days, hours, minutes, rest := seconds / 86400, seconds % 86400 / 3600, seconds % 3600 / 60, seconds % 60;
    FieldsAddUp(seconds, days, hours, minutes, rest);
    ReadPadded(minutes);
    ReadPadded(rest);
    ReadPrinted(days);
    ReadPrinted(hours);
    ReadPrinted(minutes);
    if days > 0 {
      ReadPadded(hours);
      ReadLong(Print(days), Pad2(hours), Pad2(minutes), Pad2(rest), days, hours, minutes, rest);
    } else if hours > 0 {
      ReadMiddle(Print(hours), Pad2(minutes), Pad2(rest), hours, minutes, rest);
    } else {
      ReadShort(Print(minutes), Pad2(rest), minutes, rest);
    }
  }

  lemma FieldsAddUp(seconds: nat, days: nat, hours: nat, minutes: nat, rest: nat)
    requires days == seconds / 86400 && hours == seconds % 86400 / 3600
    requires minutes == seconds % 3600 / 60 && rest == seconds % 60
    ensures seconds == days * 86400 + hours * 3600 + minutes * 60 + rest
    ensures hours < 24 && minutes < 60 && rest < 60 && days <= seconds
  {
    var allMinutes := seconds / 60;
    MinutesOf(seconds);
    var allHours := allMinutes / 60;
    HoursOf(allMinutes, seconds);
    DaysOf(allHours, seconds);
  }

  lemma MinutesOf(seconds: nat)
    ensures seconds == seconds / 60 * 60 + seconds % 60 && seconds % 60 < 60
  {
  }

  /** The minutes and hours, counted from all the minutes. */
  lemma HoursOf(allMinutes: nat, seconds: nat)
    requires allMinutes == seconds / 60
    ensures seconds % 3600 / 60 == allMinutes % 60 && seconds / 3600 == allMinutes / 60
    ensures allMinutes == allMinutes / 60 * 60 + allMinutes % 60
  {
    var h, m, s := allMinutes / 60, allMinutes % 60, seconds % 60;
    assert seconds == 3600 * h + (60 * m + s) && 60 * m + s < 3600;
    By3600(seconds, h, 60 * m + s);
    By60(60 * m + s, m, s);
  }

  lemma DaysOf(allHours: nat, seconds: nat)
    requires allHours == seconds / 3600
    ensures seconds % 86400 / 3600 == allHours % 24 && seconds / 86400 == allHours / 24
    ensures allHours == allHours / 24 * 24 + allHours % 24
  {
    var d, h, s := allHours / 24, allHours % 24, seconds % 3600;
    assert seconds == 86400 * d + (3600 * h + s) && 3600 * h + s < 86400;
    By86400(seconds, d, 3600 * h + s);
    By3600(3600 * h + s, h, s);
  }

  /** Division with a remainder has one result. */
  lemma By60(n: nat, q: nat, r: nat)
    requires n == 60 * q + r && r < 60
    ensures n / 60 == q && n % 60 == r
  {
  }

  lemma By3600(n: nat, q: nat, r: nat)
    requires n == 3600 * q + r && r < 3600
    ensures n / 3600 == q && n % 3600 == r
  {
  }

  lemma By86400(n: nat, q: nat, r: nat)
    requires n == 86400 * q + r && r < 86400
    ensures n / 86400 == q && n % 86400 == r
  {
  }

  /** Different durations never print alike. */
  lemma DurationsPrintApart(a: nat, b: nat)
    requires a <= MAX_INT64 && b <= MAX_INT64 && FormatSlurmDuration(a) == FormatSlurmDuration(b)
    ensures a == b
  {
    hide Meaning, FormatSlurmDuration;
    DurationRoundTrip(a);
    DurationRoundTrip(b);
  }

  /** A time limit or an elapsed time that is shown as a duration reads back as the seconds meant. */
  lemma ShownTimesReadBack(limit: SlurmNumber, start: SlurmNumber, now: int64)
    ensures limit.isSet && !limit.infinite && 0 <= limit.number <= MAX_INT64 / 60 ==>
      Meaning(FormatTimeLimit(limit)) == Some(limit.number * 60)
    ensures start.isSet && !start.infinite && 0 < start.number <= now ==>
      Meaning(FormatElapsed(start, now)) == Some(now - start.number)
    ensures limit.infinite ==> FormatTimeLimit(limit) == "UNLIMITED"
    ensures !limit.infinite && !(limit.isSet && 0 <= limit.number <= MAX_INT64 / 60) ==> FormatTimeLimit(limit) == "—"
    ensures !(start.isSet && !start.infinite && 0 < start.number <= now) ==> FormatElapsed(start, now) == "—"
  {
    hide Meaning, FormatSlurmDuration;
    if limit.isSet && !limit.infinite && 0 <= limit.number <= MAX_INT64 / 60 { DurationRoundTrip(limit.number * 60); }
    if start.isSet && !start.infinite && 0 < start.number <= now { DurationRoundTrip(now - start.number); }
  }

  // ---------------------------------------------------------------------------------------
  // The steps of a job.

  const FIELD_COUNT := 7
  const MAX_STEPS := 1024
  const MAX_LINE_LENGTH := 8 * MAX_DETAIL_FIELD_LENGTH

  datatype Step = Step(name: string, aveCpu: string, aveCpuSeconds: int64, totalCpu: string, totalCpuSeconds: int64,
                       aveRssBytes: int64, maxRssBytes: int64, aveVmBytes: int64, maxVmBytes: int64)
  datatype Usage = Usage(totalCpuSeconds: int64, maxRssBytes: int64, steps: seq<Step>)

  predicate HasPrefix(s: string, prefix: string) {
    prefix <= s
  }

  function TrimPrefix(s: string, prefix: string): string {
    if prefix <= s then s[|prefix|..] else s
  }

  function TrimSuffix(s: string, c: char): string {
    if s != "" && s[|s| - 1] == c then s[..|s| - 1] else s
  }

  function StepName(stepId: string, jobId: string): string {
    var name := TrimPrefix(stepId, jobId + ".");
    if name == jobId then "job" else name
  }

  /** The text before and after the first `=`. */
  function Cut(s: string): Option<(string, string)> {
    if s == "" then None
    else if s[0] == '=' then Some(("", s[1..]))
    else
      var rest := Cut(s[1..]);
      if rest.None? then None else Some(([s[0]] + rest.value.0, rest.value.1))
  }

  function CpuItem(items: seq<string>): Option<string> {
    if items == [] then None
    else
      var pair := Cut(TrimSpace(items[0]));
      if pair.Some? && pair.value.0 == "cpu" then Some(TrimSpace(pair.value.1)) else CpuItem(items[1..])
  }

  /** `parseSstatTRESCPU`. */
  function TresCpu(field: string): Option<string> {
    var value := TrimSpace(field);
    if Unavailable(value) then Some(value)
    else if Utf8Length(value) > MAX_DETAIL_FIELD_LENGTH then None
    else CpuItem(Split(value, ','))
  }

  function Bounded(m: Option<nat>): Option<int64> {
    if m.Some? && m.value <= MAX_INT64 then Some(m.value) else None
  }

  /** Memory sizes are floating point in the source: their parser is a parameter. */
  type SizeParser = string -> Option<int64>

  function ReadRow(line: string, jobId: string, size: SizeParser): (r: Option<Step>)
    ensures r.Some? ==> 0 <= r.value.totalCpuSeconds
  {
    var fields := Split(TrimSuffix(line, '\r'), '|');
    if |fields| != FIELD_COUNT then None
    else
      var stepId := TrimSpace(fields[0]);
      var name := StepName(stepId, jobId);
      var totalCpu := TresCpu(fields[6]);
      if stepId != jobId && !HasPrefix(stepId, jobId + ".") then None
      else if name == "" || Utf8Length(name) > MAX_DETAIL_FIELD_LENGTH then None
      else if Bounded(Meaning(fields[1])).None? || totalCpu.None? || Bounded(Meaning(totalCpu.value)).None? then None
      else if size(fields[2]).None? || size(fields[3]).None? || size(fields[4]).None? || size(fields[5]).None? then None
      else Some(Step(name, TrimSpace(fields[1]), Meaning(fields[1]).value, totalCpu.value,
                Meaning(totalCpu.value).value,
                     size(fields[2]).value, size(fields[3]).value, size(fields[4]).value, size(fields[5]).value))
  }

  /** A line of the output as the scanner gives it, if it is not too long for the scanner's buffer. */
  function ReadLine(line: string, jobId: string, size: SizeParser): (r: Option<Step>)
    ensures r.Some? ==> 0 <= r.value.totalCpuSeconds
  {
    if Utf8Length(line) >= MAX_LINE_LENGTH then None else ReadRow(TrimSuffix(line, '\r'), jobId, size)
  }

  method ParseRow(line: string, jobId: string, size: SizeParser) returns (r: Result<Step, Error>)
    ensures r.Ok? <==> ReadRow(line, jobId, size).Some?
    ensures r.Ok? ==> r.value == ReadRow(line, jobId, size).value
  {
    hide Split, TrimSpace, TrimSuffix, Meaning, TresCpu, Utf8Length, StepName;
    var fields := Split(TrimSuffix(line, '\r'), '|');
    if |fields| != FIELD_COUNT {
      return Err(BadRow);
    }
    var stepId := TrimSpace(fields[0]);
    if stepId != jobId && !HasPrefix(stepId, jobId + ".") {
      return Err(WrongJob);
    }
    var name := StepName(stepId, jobId);
    if name == "" || Utf8Length(name) > MAX_DETAIL_FIELD_LENGTH {
      return Err(BadStep);
    }
    var aveCpu := ParseSstatDuration(fields[1]);
    if aveCpu.Err? {
      return Err(aveCpu.error);
    }
    var totalText := TresCpu(fields[6]);
    if totalText.None? {
      return Err(Invalid);
    }
    var totalCpu := ParseSstatDuration(totalText.value);
    if totalCpu.Err? {
      return Err(totalCpu.error);
    }
    var sizes: seq<int64> := [];
    for i := 0 to 4
      invariant |sizes| == i && forall j | 0 <= j < i :: Some(sizes[j]) == size(fields[j + 2])
    {
      var s := size(fields[i + 2]);
      if s.None? {
        return Err(Invalid);
      }
      sizes := sizes + [s.value];
    }
    assert Some(sizes[0]) == size(fields[2]) && Some(sizes[1]) == size(fields[3]);
    assert Some(sizes[2]) == size(fields[4]) && Some(sizes[3]) == size(fields[5]);
    return Ok(Step(name, TrimSpace(fields[1]), aveCpu.value, totalText.value, totalCpu.value,
                   sizes[0], sizes[1], sizes[2], sizes[3]));
  }

  /** What the printer writes: digits, hyphens and colons. */
  lemma PrintedShape(seconds: nat)
    requires seconds <= MAX_INT64
    ensures var f := FormatSlurmDuration(seconds);
      && 0 < |f| <= 28 && IsDigit(f[0]) && IsDigit(f[|f| - 1])
      && forall i | 0 <= i < |f| :: IsDigit(f[i]) || f[i] == '-' || f[i] == ':'
  {
    hide Print, MAX_INT64;
    var days, hours, minutes, rest := seconds / 86400, seconds % 86400 / 3600, seconds % 3600 / 60, seconds % 60;
    FieldsAddUp(seconds, days, hours, minutes, rest);
    ShortNumeral(hours);
    ShortNumeral(minutes);
    ShortNumeral(rest);
    if days > 0 { LongNumeral(days); }
  }

  lemma ShortNumeral(n: nat)
    requires n < 60
    ensures |Print(n)| <= 2 && |Pad2(n)| == 2 && AllDigits(Pad2(n))
  {
    assert n >= 10 ==> Print(n) == Print(n / 10) + [DigitChar(n % 10)] && |Print(n / 10)| == 1;
  }

  lemma LongNumeral(n: nat)
    requires 1 <= n <= MAX_INT64
    ensures |Print(n)| <= 19
  {
    PositiveExactly(Print(n), n);
  }

  predicate Bare(s: string) {
    s != "" && BareEnds(s) && Without(s, '|')
  }

  /** The columns of a row: the step, the average and the total CPU time and the four sizes, as Slurm prints
      them, are read back each into its own field. */
  lemma PrintedRowReadsBack(fields: seq<string>, jobId: string, name: string, aveCpu: nat, totalCpu: nat,
                            size: SizeParser)
    requires |fields| == FIELD_COUNT && Bare(jobId) && Bare(name) && name != jobId
    requires Utf8Length(name) <= MAX_DETAIL_FIELD_LENGTH && aveCpu <= MAX_INT64 && totalCpu <= MAX_INT64
    requires fields[0] == jobId + "." + name && fields[1] == FormatSlurmDuration(aveCpu)
    requires fields[6] == "cpu=" + FormatSlurmDuration(totalCpu)
    requires forall i | 2 <= i < 6 :: Without(fields[i], '|') && size(fields[i]).Some?
    ensures ReadRow(Join(fields, "|"), jobId, size) ==
      Some(Step(name, FormatSlurmDuration(aveCpu), aveCpu, FormatSlurmDuration(totalCpu), totalCpu,
                size(fields[2]).value, size(fields[3]).value, size(fields[4]).value, size(fields[5]).value))
  {
    hide FormatSlurmDuration, Meaning, TrimSpace, TresCpu, StepName, HasPrefix, ReadRow, Join, Without, Split;
    hide TrimSuffix, Utf8Length, Bare;
    StepIsRead(jobId, name);
    PrintedIsRead(aveCpu);
    PrintedIsRead(totalCpu);
    LineOfFields(fields, FormatSlurmDuration(totalCpu));
    RowOfFields(Join(fields, "|"), jobId, size, fields, name, aveCpu, FormatSlurmDuration(totalCpu), totalCpu);
  }

  lemma PrintedIsRead(seconds: nat)
    requires seconds <= MAX_INT64
    ensures var f := FormatSlurmDuration(seconds);
      && f != "" && Without(f, '|') && IsDigit(f[|f| - 1]) && TrimSpace(f) == f
      && Meaning(f) == Some(seconds) && TresCpu("cpu=" + f) == Some(f)
  {
    var f := FormatSlurmDuration(seconds);
    PrintedShape(seconds);
    DurationRoundTrip(seconds);
    hide FormatSlurmDuration, Meaning, TresCpu;
    DigitEnds(f);
    CpuIsRead(f);
  }

  lemma StepIsRead(jobId: string, name: string)
    requires Bare(jobId) && Bare(name) && name != jobId
    ensures name != ""
    ensures var stepId := jobId + "." + name;
      && Without(stepId, '|') && TrimSpace(stepId) == stepId && HasPrefix(stepId, jobId + ".")
      && StepName(stepId, jobId) == name
  {
    BareIsTrimmed(jobId + "." + name);
    StepIsNamed(jobId, name);
  }

  lemma LineOfFields(fields: seq<string>, total: string)
    requires |fields| == FIELD_COUNT && fields[6] == "cpu=" + total
    requires forall i | 0 <= i < 6 :: Without(fields[i], '|')
    requires total != "" && Without(total, '|') && IsDigit(total[|total| - 1])
    ensures var line := Join(fields, "|"); TrimSuffix(line, '\r') == line && Split(line, '|') == fields
  {
    assert fields[6][|fields[6]| - 1] == total[|total| - 1];
    assert Without(fields[6], '|');
    hide Split, Join, Without;
    JoinSplits(fields, '|');
    JoinEnds(fields, "|");
  }

  lemma RowOfFields(line: string, jobId: string, size: SizeParser, fields: seq<string>, name: string, aveCpu: nat,
                    total: string, totalCpu: nat)
    requires |fields| == FIELD_COUNT && TrimSuffix(line, '\r') == line && Split(line, '|') == fields
    requires TrimSpace(fields[0]) == fields[0] && HasPrefix(fields[0], jobId + ".")
    requires StepName(fields[0], jobId) == name != "" && Utf8Length(name) <= MAX_DETAIL_FIELD_LENGTH
    requires TrimSpace(fields[1]) == fields[1] && Meaning(fields[1]) == Some(aveCpu) && aveCpu <= MAX_INT64
    requires TresCpu(fields[6]) == Some(total) && Meaning(total) == Some(totalCpu) && totalCpu <= MAX_INT64
    requires forall i | 2 <= i < 6 :: size(fields[i]).Some?
    ensures ReadRow(line, jobId, size) ==
      Some(Step(name, fields[1], aveCpu, total, totalCpu,
                size(fields[2]).value, size(fields[3]).value, size(fields[4]).value, size(fields[5]).value))
  {
    hide Split, TrimSuffix, TrimSpace, HasPrefix, StepName, Utf8Length, Meaning, TresCpu;
  }

  lemma {:induction false} JoinEnds(parts: seq<string>, separator: string)
    requires parts != [] && parts[|parts| - 1] != ""
    ensures var s, last := Join(parts, separator), parts[|parts| - 1];
      s != "" && s[|s| - 1] == last[|last| - 1]
  {
    if |parts| > 1 { JoinEnds(parts[1..], separator); }
  }

  lemma StepIsNamed(jobId: string, name: string)
    requires name != jobId
    ensures HasPrefix(jobId + "." + name, jobId + ".") && StepName(jobId + "." + name, jobId) == name
  {
  }

  lemma {:induction false} CutFirst(a: string, b: string)
    requires Without(a, '=')
    ensures Cut(a + "=" + b) == Some((a, b))
  {
    var s := a + "=" + b;
    if a == "" {
      assert s[1..] == b;
    } else {
      assert s[1..] == a[1..] + "=" + b;
      CutFirst(a[1..], b);
      assert a == [a[0]] + a[1..];
    }
  }

  lemma CpuIsRead(total: string)
    requires 0 < |total| <= 28 && IsDigit(total[0]) && IsDigit(total[|total| - 1])
    requires forall i | 0 <= i < |total| :: IsDigit(total[i]) || total[i] == '-' || total[i] == ':'
    ensures TresCpu("cpu=" + total) == Some(total)
  {
    var value := "cpu=" + total;
    DigitEnds(total);
    BareIsTrimmed(value);
    AsciiLength(value);
    SplitWhole(value, ',');
    CutFirst("cpu", total);
    assert value[0] == 'c' && !Unavailable(value);
    hide TrimSpace, Split, Cut, Utf8Length, Unavailable;
    assert value == "cpu" + "=" + total;
    assert CpuItem([value]) == Some(total);
  }

  /** The exact CPU time of the first `n` rows. */
  function TotalCpu(lines: seq<string>, jobId: string, size: SizeParser, n: nat): nat
    requires n <= |lines|
  {
    if n == 0 then 0
    else TotalCpu(lines, jobId, size, n - 1) +
         var step := ReadLine(lines[n - 1], jobId, size);
         if step.Some? then step.value.totalCpuSeconds else 0
  }

  lemma {:induction false} TotalCpuGrows(lines: seq<string>, jobId: string, size: SizeParser, m: nat, n: nat)
    requires m <= n <= |lines|
    ensures TotalCpu(lines, jobId, size, m) <= TotalCpu(lines, jobId, size, n)
  {
    if m < n { TotalCpuGrows(lines, jobId, size, m, n - 1); }
  }

  /** The CPU time of all rows is that of any two parts of them. */
  lemma {:induction false} CpuTimeOfParts(a: seq<string>, b: seq<string>, jobId: string, size: SizeParser)
    ensures TotalCpu(a + b, jobId, size, |a + b|) == TotalCpu(a, jobId, size, |a|) + TotalCpu(b, jobId, size, |b|)
    ensures |a| == 1 && ReadLine(a[0], jobId, size).Some? ==>
      TotalCpu(a, jobId, size, 1) == ReadLine(a[0], jobId, size).value.totalCpuSeconds
  {
    hide ReadLine;
    if b == [] {
      assert a + b == a;
    } else {
      var front := b[..|b| - 1];
      CpuTimeOfParts(a, front, jobId, size);
      CpuTimeOfFront(a + b, a + front, jobId, size, |a + front|);
      CpuTimeOfFront(b, front, jobId, size, |front|);
    }
  }

  lemma {:induction false} CpuTimeOfFront(all: seq<string>, front: seq<string>, jobId: string, size: SizeParser,
                                          n: nat)
    requires n <= |front| && front <= all
    ensures TotalCpu(all, jobId, size, n) == TotalCpu(front, jobId, size, n)
  {
    if n > 0 { CpuTimeOfFront(all, front, jobId, size, n - 1); }
  }

  /** It succeeds exactly when there are at most 1024 rows, none too long and all well-formed, and the exact sum of
      their CPU times fits 64 bits; the total is that sum and the peak that maximum. */
  method ParseSstat(lines: seq<string>, jobId: string, size: SizeParser) returns (r: Result<Usage, Error>)
    ensures r.Ok? <==>
      && |lines| <= MAX_STEPS && (forall i | 0 <= i < |lines| :: ReadLine(lines[i], jobId, size).Some?)
      && TotalCpu(lines, jobId, size, |lines|) <= MAX_INT64
    ensures r.Ok? ==>
      && r.value.totalCpuSeconds == TotalCpu(lines, jobId, size, |lines|)
      && |r.value.steps| == |lines| && (forall i | 0 <= i < |lines| ::
        r.value.steps[i] == ReadLine(lines[i], jobId, size).value)
      && (forall i | 0 <= i < |lines| :: r.value.steps[i].maxRssBytes <= r.value.maxRssBytes)
      && (r.value.maxRssBytes == 0 ||
         exists i :: 0 <= i < |lines| && r.value.steps[i].maxRssBytes == r.value.maxRssBytes)
  {
    hide ReadRow, TrimSuffix, Utf8Length;
    var total: int64, peak: int64 := 0, 0;
    var steps: seq<Step> := [];
    for i := 0 to |lines|
      invariant i <= MAX_STEPS && |steps| == i
      invariant forall j | 0 <= j < i ::
        ReadLine(lines[j], jobId, size).Some? && steps[j] == ReadLine(lines[j], jobId, size).value
      invariant total == TotalCpu(lines, jobId, size, i)
      invariant forall j | 0 <= j < i :: steps[j].maxRssBytes <= peak
      invariant peak == 0 || exists j :: 0 <= j < i && steps[j].maxRssBytes == peak
    {
      if Utf8Length(lines[i]) >= MAX_LINE_LENGTH {
        return Err(LineTooLong);
      }
      if |steps| == MAX_STEPS {
        return Err(TooManySteps);
      }
      var step := ParseRow(TrimSuffix(lines[i], '\r'), jobId, size);
      if step.Err? {
        return Err(step.error);
      }
      if step.value.totalCpuSeconds > MAX_INT64 - total {
        TotalCpuGrows(lines, jobId, size, i + 1, |lines|);
        return Err(OutOfRange);
      }
      total := total + step.value.totalCpuSeconds;
      if step.value.maxRssBytes > peak {
        peak := step.value.maxRssBytes;
      }
      steps := steps + [step.value];
    }
    return Ok(Usage(total, peak, steps));
  }
}
