/** The stand-alone heartbeat monitor script: finding the sensor in the
    service browser's output, reading its address from the resolver's
    output, and the per-line update of the occupancy state from the sensor's
    log. The browser, the resolver and the log process are not run; their
    output and the clock are passed in. */
module HeartbeatMonitor {
  import opened Wrappers
  import opened Text
  import Rooms

  // ---------------------------------------------------------------- device discovery

  const ServiceType: string := "_esphomelib._tcp"

  /** A browser line names the device when its lower-cased text holds the
      pattern, it is an ESPHome service line and it has a name field. */
  predicate NamesDevice(line: string, pattern: string) {
    Contains(Lower(line), pattern) && Contains(line, ServiceType) && |Split(line, ";")| >= 4
  }

  /** The name field of the first line that names the device. */
  function FirstDevice(lines: seq<string>, pattern: string): (r: Option<string>)
    ensures r.None? <==> forall i :: 0 <= i < |lines| ==> !NamesDevice(lines[i], pattern)
    ensures r.Some? ==> exists i :: 0 <= i < |lines| && NamesDevice(lines[i], pattern)
                          && (forall j :: 0 <= j < i ==> !NamesDevice(lines[j], pattern))
                          && r.value == Split(lines[i], ";")[3]
  {
    if lines == [] then None
    else if NamesDevice(lines[0], pattern) then Some(Split(lines[0], ";")[3])
    else
      var r := FirstDevice(lines[1..], pattern);
      assert forall i :: 1 <= i < |lines| ==> lines[i] == lines[1..][i - 1];
      if r.Some? then
        var i :| 0 <= i < |lines[1..]| && NamesDevice(lines[1..][i], pattern)
                 && (forall j :: 0 <= j < i ==> !NamesDevice(lines[1..][j], pattern))
                 && r.value == Split(lines[1..][i], ";")[3];
        assert forall j :: 0 <= j < i + 1 ==> !NamesDevice(lines[j], pattern) by {
          forall j | 0 <= j < i + 1 ensures !NamesDevice(lines[j], pattern) {
            if j > 0 { assert lines[j] == lines[1..][j - 1]; }
          }
        }
        r
      else r
  }

  lemma FirstDeviceStep(lines: seq<string>, i: nat, pattern: string)
    requires i < |lines|
    ensures FirstDevice(lines[i..], pattern)
      == if NamesDevice(lines[i], pattern) then Some(Split(lines[i], ";")[3]) else FirstDevice(lines[i + 1..], pattern)
  {
    assert lines[i..][0] == lines[i] && lines[i..][1..] == lines[i + 1..];
  }

  // ---------------------------------------------------------------- address resolution

  predicate IsDotDigit(c: char) {
    IsDigit(c) || c == '.'
  }

  /** Length of the trailing run of digits and dots. */
  function TrailingDotDigits(t: string): (n: nat)
    ensures n <= |t|
    ensures forall k :: |t| - n <= k < |t| ==> IsDotDigit(t[k])
    ensures n == |t| || !IsDotDigit(t[|t| - n - 1])
  {
    if t == [] || !IsDotDigit(t[|t| - 1]) then 0 else 1 + TrailingDotDigits(t[..|t| - 1])
  }

  /** The run of digits and dots that ends `t`, when whitespace comes right
      before it: what `\s+([\d.]+)$` captures in the stripped output. */
  function TrailingAddress(t: string): (r: Option<string>)
    ensures r.Some? ==> r.value != [] && forall k :: 0 <= k < |r.value| ==> IsDotDigit(r.value[k])
    ensures r.Some? ==> |r.value| < |t| && t[|t| - |r.value|..] == r.value && IsSpace(t[|t| - |r.value| - 1])
    ensures r.None? ==> TrailingDotDigits(t) == 0 || TrailingDotDigits(t) == |t|
                        || !IsSpace(t[|t| - TrailingDotDigits(t) - 1])
  {
    var n := TrailingDotDigits(t);
    if 1 <= n < |t| && IsSpace(t[|t| - n - 1]) then
      var ip := t[|t| - n..];
      assert |ip| == n && forall k :: 0 <= k < n ==> ip[k] == t[|t| - n + k];
      Some(ip)
    else None
  }

  /** `resolve_device_ip` on the resolver's exit code and output. */
  function ResolveDeviceIp(returnCode: int, stdout: string): (r: Option<string>)
    ensures returnCode != 0 ==> r.None?
    ensures returnCode == 0 ==> r == TrailingAddress(Strip(stdout))
  {
    if returnCode != 0 then None else TrailingAddress(Strip(stdout))
  }

  /** A resolver line `<host><whitespace><address>` gives the address back. */
  lemma ResolveRoundTrip(host: string, sep: char, ip: string)
    requires host != [] && !IsSpace(host[0]) && IsSpace(sep)
    requires ip != [] && forall k :: 0 <= k < |ip| ==> IsDotDigit(ip[k])
    ensures ResolveDeviceIp(0, host + [sep] + ip + ['\n']) == Some(ip)
  {
    StripResolverLine(host + [sep] + ip);
    TrailingAddressOf(host, sep, ip);
  }

  lemma StripResolverLine(line: string)
    requires line != [] && !IsSpace(line[0]) && !IsSpace(line[|line| - 1])
    ensures Strip(line + ['\n']) == line
  {
    var s := line + ['\n'];
    assert TrimLeft(s) == s;
    assert s[..|s| - 1] == line;
    assert TrimRight(s) == TrimRight(line) == line;
  }

  lemma TrailingAddressOf(host: string, sep: char, ip: string)
    requires host != [] && IsSpace(sep)
    requires ip != [] && forall k :: 0 <= k < |ip| ==> IsDotDigit(ip[k])
    ensures TrailingAddress(host + [sep] + ip) == Some(ip)
  {
    var line := host + [sep] + ip;
    TrailingRunOf(host + [sep], ip);
    assert line[|line| - |ip|..] == ip;
    assert line[|line| - |ip| - 1] == sep;
  }

  lemma {:induction false} TrailingRunOf(a: string, b: string)
    requires a != [] && !IsDotDigit(a[|a| - 1])
    requires forall k :: 0 <= k < |b| ==> IsDotDigit(b[k])
    ensures TrailingDotDigits(a + b) == |b|
  {
    if b != [] {
      assert (a + b)[..|a + b| - 1] == a + b[..|b| - 1];
      TrailingRunOf(a, b[..|b| - 1]);
    } else {
      assert a + b == a;
    }
  }

  // ---------------------------------------------------------------- heart-rate lines

  /** The label the log line must carry before the reading. */
  const RateLabel: string := "'Real-time heart rate'"

  function LeadingSpaces(s: string): (n: nat)
    ensures n <= |s| && forall k :: 0 <= k < n ==> IsSpace(s[k])
    ensures n == |s| || !IsSpace(s[n])
  {
    if s == [] || !IsSpace(s[0]) then 0 else 1 + LeadingSpaces(s[1..])
  }

  /** A reading `<digits>.<digits><spaces>bpm` starts at `q`. */
  predicate RateAt(line: string, q: nat) {
    q <= |line| && PointAt(line, q, LeadingDigits(line[q..]))
  }

  /** The `a` digits at `q` are followed by the point and a fraction. */
  predicate PointAt(line: string, q: nat, a: nat) {
    a >= 1 && q + a < |line| && line[q + a] == '.' && FracAt(line, q + a + 1, LeadingDigits(line[q + a + 1..]))
  }

  /** The `b` digits at `i` are followed by the unit. */
  predicate FracAt(line: string, i: nat, b: nat) {
    b >= 1 && i + b <= |line| && UnitAt(line, i + b)
  }

  /** Spaces, then "bpm", from `j`. */
  predicate UnitAt(line: string, j: nat) {
    j <= |line| && StartsWith(line[j + LeadingSpaces(line[j..])..], "bpm")
  }

  /** The reading's number, `<digits>.<digits>`. */
  function RateText(line: string, q: nat): (t: string)
    requires RateAt(line, q)
    ensures |t| >= 3 && IsDigit(t[0]) && IsDigit(t[|t| - 1])
    ensures forall k :: 0 <= k < |t| ==> IsDotDigit(t[k])
  {
    var a := LeadingDigits(line[q..]);
    var b := LeadingDigits(line[q + a + 1..]);
    assert line[q..q + a] == line[q..][..a];
    assert line[q + a + 1..q + a + 1 + b] == line[q + a + 1..][..b];
    var t := line[q..q + a + 1 + b];
    assert forall k :: 0 <= k < a ==> t[k] == line[q..][..a][k];
    assert forall k :: a < k < |t| ==> t[k] == line[q + a + 1..][..b][k - a - 1];
    t
  }

  predicate NoNewline(line: string, from: nat, to: nat)
    requires from <= to <= |line|
  {
    forall k :: from <= k < to ==> line[k] != '\n'
  }

  /** The lazy `.*?` part: the first reading at or after `q` that is reached
      without crossing a newline. */
  function FirstRateFrom(line: string, q: nat): (r: Option<nat>)
    requires q <= |line|
    ensures r.Some? ==> q <= r.value <= |line| && RateAt(line, r.value) && NoNewline(line, q, r.value)
    ensures r.Some? ==> forall q' :: q <= q' < r.value ==> !RateAt(line, q')
    ensures r.None? ==> forall q' :: q <= q' <= |line| && NoNewline(line, q, q') ==> !RateAt(line, q')
    decreases |line| - q
  {
    if RateAt(line, q) then Some(q)
    else if q < |line| && line[q] != '\n' then
      var r := FirstRateFrom(line, q + 1);
      NoNewlineFrom(line, q);
      r
    else None
  }

  /** A newline-free stretch from `q` is newline-free from `q + 1`. */
  lemma NoNewlineFrom(line: string, q: nat)
    requires q < |line|
    ensures forall q' :: q < q' <= |line| && NoNewline(line, q, q') ==> NoNewline(line, q + 1, q')
  {
  }

  /** The pattern matches with its label at `p`. */
  predicate HasMatchAt(line: string, p: nat) {
    p + |RateLabel| <= |line| && line[p..p + |RateLabel|] == RateLabel && FirstRateFrom(line, p + |RateLabel|).Some?
  }

  /** The leftmost label at or after `p` at which the pattern matches, and
      the start of its reading. */
  function SearchFrom(line: string, p: nat): (r: Option<(nat, nat)>)
    ensures r.Some? ==> p <= r.value.0 && HasMatchAt(line, r.value.0)
                        && r.value.1 == FirstRateFrom(line, r.value.0 + |RateLabel|).value
    decreases |line| - p
  {
    if p + |RateLabel| > |line| then None
    else if HasMatchAt(line, p) then Some((p, FirstRateFrom(line, p + |RateLabel|).value))
    else SearchFrom(line, p + 1)
  }

  /** The search finds the leftmost match, and fails only when there is none. */
  lemma {:induction false} SearchFromLeftmost(line: string, p: nat)
    ensures var r := SearchFrom(line, p);
      r.Some? ==> forall p' :: p <= p' < r.value.0 ==> !HasMatchAt(line, p')
    ensures SearchFrom(line, p).None? ==> forall p' :: p <= p' ==> !HasMatchAt(line, p')
    decreases |line| - p
  {
    if p + |RateLabel| > |line| {
    } else if !HasMatchAt(line, p) {
      SearchFromLeftmost(line, p + 1);
      var r := SearchFrom(line, p);
      forall p' | p <= p' && (r.None? || p' < r.value.0) ensures !HasMatchAt(line, p') {
        if p' > p {
          assert p + 1 <= p';
        }
      }
    }
  }

  /** `heartbeat_pattern.search(line)`: the number of the leftmost match. */
  function HeartRate(line: string): (r: Option<string>)
    ensures r.None? <==> forall p :: !HasMatchAt(line, p)
    ensures r.Some? ==> |r.value| >= 3 && forall k :: 0 <= k < |r.value| ==> IsDotDigit(r.value[k])
  {
    SearchFromLeftmost(line, 0);
    match SearchFrom(line, 0)
    case None => None
    case Some((p, q)) => Some(RateText(line, q))
  }

  /** A found reading is the number after the leftmost match of the pattern. */
  lemma HeartRateIsLeftmost(line: string) returns (p: nat)
    requires HeartRate(line).Some?
    ensures HasMatchAt(line, p)
    ensures forall p' :: 0 <= p' < p ==> !HasMatchAt(line, p')
    ensures HeartRate(line).value == RateText(line, FirstRateFrom(line, p + |RateLabel|).value)
  {
    SearchFromLeftmost(line, 0);
    p := SearchFrom(line, 0).value.0;
  }

  /** `float(text) > 0` for a reading `<digits>.<digits>`: some digit is not zero. */
  function RatePositive(t: string): (r: bool)
    ensures r <==> exists k :: 0 <= k < |t| && IsDigit(t[k]) && t[k] != '0'
  {
    if t == [] then false
    else (IsDigit(t[0]) && t[0] != '0') || (assert forall k :: 1 <= k < |t| ==> t[k] == t[1..][k - 1]; RatePositive(t[1..]))
  }

  /** A line `… 'Real-time heart rate' … <digits>.<digits> bpm` matches. */
  lemma LabelledReadingMatches(line: string, p: nat, q: nat)
    requires p + |RateLabel| <= q <= |line| && line[p..p + |RateLabel|] == RateLabel
    requires NoNewline(line, p + |RateLabel|, q) && RateAt(line, q)
    ensures HeartRate(line).Some?
  {
    assert HasMatchAt(line, p);
  }

  /** A log line `'Real-time heart rate' <whole>.<frac> bpm` yields its reading. */
  lemma HeartRateOfReading(whole: string, frac: string)
    requires whole != [] && AllDigits(whole) && frac != [] && AllDigits(frac)
    ensures HeartRate(RateLabel + " " + whole + "." + frac + " bpm") == Some(whole + "." + frac)
  {
    var line := RateLabel + " " + whole + "." + frac + " bpm";
    ReadingShapeOf(whole, frac);
    ReadingFound(line, whole, frac);
    ReadingText(line, |RateLabel|, whole, frac);
    assert SearchFrom(line, 0) == Some((0, |RateLabel| + 1));
  }

  /** The layout of such a line, position by position. */
  predicate ReadingShape(line: string, whole: string, frac: string) {
    ReadingTail(line, |RateLabel|, whole, frac) && line[..|RateLabel|] == RateLabel
  }

  /** What follows the first `L` characters: a space, the reading and " bpm". */
  predicate ReadingTail(line: string, L: nat, whole: string, frac: string) {
    var a := |whole|;
    var b := |frac|;
    |line| == L + a + b + 6 && line[L] == ' ' && line[L + 1..L + 1 + a] == whole
    && line[L + 1 + a] == '.' && line[L + 2 + a..L + 2 + a + b] == frac && line[L + 2 + a + b..] == " bpm"
  }

  lemma ReadingShapeOf(whole: string, frac: string)
    ensures ReadingShape(RateLabel + " " + whole + "." + frac + " bpm", whole, frac)
  {
    var line := RateLabel + " " + whole + "." + frac + " bpm";
    var L := |RateLabel|;
    var a := |whole|;
    var b := |frac|;
    Regroup(RateLabel, " ", whole, ".", frac, " bpm");
    assert line[L + 1..L + 1 + a] == whole;
    assert line[L + 2 + a..L + 2 + a + b] == frac;
  }

  lemma ReadingFound(line: string, whole: string, frac: string)
    requires whole != [] && AllDigits(whole) && frac != [] && AllDigits(frac)
    requires ReadingShape(line, whole, frac)
    ensures HasMatchAt(line, 0) && FirstRateFrom(line, |RateLabel|) == Some(|RateLabel| + 1)
  {
    var L := |RateLabel|;
    ReadingAt(line, L, whole, frac);
    assert line[L..][0] == ' ';
    assert !RateAt(line, L);
    assert line[0..L] == RateLabel;
  }

  lemma ReadingText(line: string, L: nat, whole: string, frac: string)
    requires whole != [] && AllDigits(whole) && frac != [] && AllDigits(frac)
    requires ReadingTail(line, L, whole, frac)
    ensures RateAt(line, L + 1) && RateText(line, L + 1) == whole + "." + frac
  {
    ReadingAt(line, L, whole, frac);
    ReadingSlice(line, L, whole, frac);
    RateTextIs(line, L + 1, |whole|, |frac|, whole + "." + frac);
  }

  /** The reading's characters are `whole`, the point and `frac`. */
  lemma ReadingSlice(line: string, L: nat, whole: string, frac: string)
    requires ReadingTail(line, L, whole, frac)
    ensures line[L + 1..L + 1 + |whole| + 1 + |frac|] == whole + "." + frac
  {
    SliceAround(line, L + 1, whole, '.', frac);
  }

  lemma RateTextIs(line: string, q: nat, a: nat, b: nat, t: string)
    requires RateAt(line, q) && LeadingDigits(line[q..]) == a && LeadingDigits(line[q + a + 1..]) == b
    requires q + a + 1 + b <= |line| && line[q..q + a + 1 + b] == t
    ensures RateText(line, q) == t
  {
  }

  lemma SliceAround<T>(s: seq<T>, i: nat, x: seq<T>, c: T, y: seq<T>)
    requires i + |x| + 1 + |y| <= |s|
    requires s[i..i + |x|] == x && s[i + |x|] == c && s[i + |x| + 1..i + |x| + 1 + |y|] == y
    ensures s[i..i + |x| + 1 + |y|] == x + [c] + y
  {
    var t := s[i..i + |x| + 1 + |y|];
    forall k | 0 <= k < |t| ensures t[k] == (x + [c] + y)[k] {
      if k < |x| {
        assert t[k] == s[i..i + |x|][k];
      } else if k > |x| {
        assert t[k] == s[i + |x| + 1..i + |x| + 1 + |y|][k - |x| - 1];
      }
    }
  }

  lemma ReadingAt(line: string, L: nat, whole: string, frac: string)
    requires whole != [] && AllDigits(whole) && frac != [] && AllDigits(frac)
    requires ReadingTail(line, L, whole, frac)
    ensures var q := L + 1;
      RateAt(line, q) && LeadingDigits(line[q..]) == |whole|
      && LeadingDigits(line[q + |whole| + 1..]) == |frac|
  {
    var q := L + 1;
    var a := |whole|;
    var b := |frac|;
    WholeDigits(line, L, whole, frac);
    FracDigits(line, L, whole, frac);
    BpmTail(line, L, whole, frac);
    RateAtOf(line, q, a, b);
  }

  /** The pieces of a reading found at `q`, one by one. */
  lemma RateAtOf(line: string, q: nat, a: nat, b: nat)
    requires q + a + 1 + b <= |line| && a >= 1 && b >= 1 && line[q + a] == '.'
    requires LeadingDigits(line[q..]) == a && LeadingDigits(line[q + a + 1..]) == b
    requires LeadingSpaces(line[q + a + 1 + b..]) == 1 && StartsWith(line[q + a + 2 + b..], "bpm")
    ensures RateAt(line, q)
  {
    var j := q + a + 1 + b;
    assert UnitAt(line, j);
    assert FracAt(line, q + a + 1, b);
  }

  lemma WholeDigits(line: string, L: nat, whole: string, frac: string)
    requires AllDigits(whole) && ReadingTail(line, L, whole, frac)
    ensures LeadingDigits(line[L + 1..]) == |whole|
  {
    var q := L + 1;
    var a := |whole|;
    assert line[q..] == line[q..q + a] + line[q + a..];
    LeadingDigitsOf(whole, line[q + a..]);
  }

  lemma FracDigits(line: string, L: nat, whole: string, frac: string)
    requires AllDigits(frac) && ReadingTail(line, L, whole, frac)
    ensures LeadingDigits(line[L + |whole| + 2..]) == |frac|
  {
    var i := L + |whole| + 2;
    var b := |frac|;
    assert line[i..] == line[i..i + b] + line[i + b..];
    assert line[i + b..] == " bpm";
    LeadingDigitsOf(frac, line[i + b..]);
  }

  lemma BpmTail(line: string, L: nat, whole: string, frac: string)
    requires ReadingTail(line, L, whole, frac)
    ensures var i := L + |whole| + |frac| + 2;
      LeadingSpaces(line[i..]) == 1 && StartsWith(line[i + 1..], "bpm")
  {
    var i := L + |whole| + |frac| + 2;
    assert line[i..] == " bpm";
    assert " bpm"[1..] == "bpm";
    assert line[i + 1..] == "bpm";
  }

  lemma Regroup<T>(a: seq<T>, b: seq<T>, c: seq<T>, d: seq<T>, e: seq<T>, f: seq<T>)
    ensures var x := a + b + c + d + e + f;
      x == (a + b) + (c + d + e) + f && x[|a + b|..|a + b| + |c + d + e|] == c + d + e
  {
  }

  // ---------------------------------------------------------------- monitor state

  /** The monitor's state between lines. */
  datatype MonitorState = MonitorState(lastHeartbeat: Option<real>, current: Option<string>, lastReport: real)

  /** The state update for one log line read at `now` (the report decision
      is `ReportDue`). */
  function StepState(s: MonitorState, line: string, now: real, timeout: real): (r: MonitorState)
    ensures r.lastReport == s.lastReport
    ensures r.current == s.current || r.current == Some(Rooms.Occupied) || r.current == Some(Rooms.Empty)
  {
    StepOnRate(s, HeartRate(line), now, timeout)
  }

  /** The same update once the line's reading, if any, is known. */
  function StepOnRate(s: MonitorState, rate: Option<string>, now: real, timeout: real): (r: MonitorState)
    ensures r.lastReport == s.lastReport
    ensures r.current == s.current || r.current == Some(Rooms.Occupied) || r.current == Some(Rooms.Empty)
  {
    var heartbeat := if rate.Some? then Some(now) else s.lastHeartbeat;
    var state := if rate.Some? && RatePositive(rate.value) then Some(Rooms.Occupied) else s.current;
    if heartbeat.Some? then
      if now - heartbeat.value > timeout then MonitorState(None, Some(Rooms.Empty), s.lastReport)
      else MonitorState(heartbeat, state, s.lastReport)
    else if state.None? then MonitorState(heartbeat, Some(Rooms.Empty), s.lastReport)
    else MonitorState(heartbeat, state, s.lastReport)
  }

  lemma StepStateIgnoresReport(s: MonitorState, line: string, now: real, timeout: real)
    ensures StepState(s, line, now, timeout) == StepState(s.(lastReport := 0.0), line, now, timeout).(lastReport := s.lastReport)
  {
  }

  predicate ReportDue(lastReport: real, now: real, interval: real) {
    now - lastReport >= interval
  }

  /** One line of `monitor_heartbeat`: the line is read at `now`; a due
      report shows the updated state and restarts the report clock at
      `reportClock`, the time read when reporting. */
  function Step(s: MonitorState, line: string, now: real, reportClock: real,
                timeout: real, interval: real): (r: (MonitorState, Option<string>))
    ensures r.0.lastHeartbeat == StepState(s, line, now, timeout).lastHeartbeat
    ensures r.0.current == StepState(s, line, now, timeout).current
    ensures r.1.Some? <==> ReportDue(s.lastReport, now, interval)
    ensures r.1.Some? ==> r.1.value == StatusWord(r.0.current) && r.0.lastReport == reportClock
    ensures r.1.None? ==> r.0.lastReport == s.lastReport
  {
    var t := StepState(s, line, now, timeout);
    if ReportDue(s.lastReport, now, interval) then (t.(lastReport := reportClock), Some(StatusWord(t.current)))
    else (t, None)
  }

  /** The monitor over a sequence of lines, each with the time it was read
      and the time a report for it would be stamped: the final state and the
      status words reported, in order. */
  function Run(s: MonitorState, lines: seq<string>, clock: seq<(real, real)>,
               timeout: real, interval: real): (r: (MonitorState, seq<string>))
    requires |clock| == |lines|
    ensures |r.1| <= |lines|
    ensures lines == [] ==> r == (s, [])
  {
    if lines == [] then (s, [])
    else
      var n := |lines| - 1;
      var before := Run(s, lines[..n], clock[..n], timeout, interval);
      var after := Step(before.0, lines[n], clock[n].0, clock[n].1, timeout, interval);
      (after.0, before.1 + (if after.1.Some? then [after.1.value] else []))
  }

  lemma RunSnoc(s: MonitorState, lines: seq<string>, clock: seq<(real, real)>, i: nat, timeout: real, interval: real)
    requires |clock| == |lines| && i < |lines|
    ensures var before := Run(s, lines[..i], clock[..i], timeout, interval);
      var after := Step(before.0, lines[i], clock[i].0, clock[i].1, timeout, interval);
      Run(s, lines[..i + 1], clock[..i + 1], timeout, interval)
        == (after.0, before.1 + (if after.1.Some? then [after.1.value] else []))
  {
    assert lines[..i + 1][..i] == lines[..i] && clock[..i + 1][..i] == clock[..i];
  }

  /** Once the state is known it stays "occupied" or "empty" for good. */
  lemma {:induction false} RunKeepsKnownState(s: MonitorState, lines: seq<string>, clock: seq<(real, real)>,
                                              timeout: real, interval: real)
    requires |clock| == |lines|
    requires s.current.Some? ==> Rooms.IsRoomState(s.current.value)
    ensures var r := Run(s, lines, clock, timeout, interval).0;
      (r.current.Some? ==> Rooms.IsRoomState(r.current.value)) && (s.current.Some? ==> r.current.Some?)
  {
    if lines != [] {
      var n := |lines| - 1;
      RunKeepsKnownState(s, lines[..n], clock[..n], timeout, interval);
    }
  }

  /** Every status the monitor reports is "occupied", "empty" or "unknown". */
  lemma {:induction false} RunReportsKnownWords(s: MonitorState, lines: seq<string>, clock: seq<(real, real)>,
                                                timeout: real, interval: real)
    requires |clock| == |lines|
    requires s.current.Some? ==> Rooms.IsRoomState(s.current.value)
    ensures var rs := Run(s, lines, clock, timeout, interval).1;
      forall k :: 0 <= k < |rs| ==> Rooms.IsRoomState(rs[k]) || rs[k] == "unknown"
  {
    if lines != [] {
      var n := |lines| - 1;
      RunReportsKnownWords(s, lines[..n], clock[..n], timeout, interval);
      RunKeepsKnownState(s, lines[..n], clock[..n], timeout, interval);
    }
  }

  /** A heart-rate line refreshes the last heartbeat time, whatever the
      reading, and a positive reading marks the room occupied. */
  lemma HeartbeatRefreshes(s: MonitorState, line: string, now: real, timeout: real)
    requires HeartRate(line).Some? && timeout >= 0.0
    ensures StepState(s, line, now, timeout).lastHeartbeat == Some(now)
    ensures RatePositive(HeartRate(line).value) ==> StepState(s, line, now, timeout).current == Some(Rooms.Occupied)
  {
  }

  /** The room becomes occupied only on a line with a positive reading. */
  lemma OccupiedOnlyOnPositiveReading(s: MonitorState, line: string, now: real, timeout: real)
    requires s.current != Some(Rooms.Occupied)
    requires StepState(s, line, now, timeout).current == Some(Rooms.Occupied)
    ensures HeartRate(line).Some? && RatePositive(HeartRate(line).value)
  {
  }

  /** A zero reading, `0.0 bpm`, never marks the room occupied. */
  lemma ZeroReadingIsNotPositive()
    ensures !RatePositive("0.0") && !RatePositive("00.000")
  {
  }

  /** Without a fresh heartbeat, a heartbeat older than the timeout empties
      the room and is forgotten; a newer one changes nothing. */
  lemma HeartbeatTimeout(s: MonitorState, line: string, now: real, timeout: real)
    requires HeartRate(line).None? && s.lastHeartbeat.Some?
    ensures now - s.lastHeartbeat.value > timeout ==> StepState(s, line, now, timeout) == MonitorState(None, Some(Rooms.Empty), s.lastReport)
    ensures now - s.lastHeartbeat.value <= timeout ==> StepState(s, line, now, timeout) == s
  {
  }

  /** Before any heartbeat, the first line settles an unknown state as empty. */
  lemma UnknownBecomesEmpty(s: MonitorState, line: string, now: real, timeout: real)
    requires HeartRate(line).None? && s.lastHeartbeat.None?
    ensures StepState(s, line, now, timeout).current == if s.current.None? then Some(Rooms.Empty) else s.current
    ensures StepState(s, line, now, timeout).lastHeartbeat == None
  {
  }

  /** A zero reading before any state is known leaves the state unknown:
      the heartbeat is fresh, so the room is not set to empty either. */
  lemma ZeroReadingKeepsUnknown(s: MonitorState, line: string, now: real, timeout: real)
    requires HeartRate(line).Some? && !RatePositive(HeartRate(line).value)
    requires s.current.None? && timeout >= 0.0
    ensures StepState(s, line, now, timeout).current.None?
  {
  }

  /** The word a status report shows: the state, or "unknown" when there is
      none (an empty state is falsy and shows "unknown" too). */
  function StatusWord(current: Option<string>): (w: string)
    ensures current.Some? && current.value != [] ==> w == current.value
    ensures current.None? || current.value == [] ==> w == "unknown"
  {
    if current.Some? && current.value != [] then current.value else "unknown"
  }

  // ---------------------------------------------------------------- the script's object

  const DefaultPattern: string := "seeed"
  const DefaultConfigFile: string := "seeedstudio-mr60bha2-kit-8e65b4.yaml"

  class PersonDetector {
    var devicePattern: string
    var configFile: string
    var lastHeartbeatTime: Option<real>
    var heartbeatTimeout: real
    var currentState: Option<string>
    var reportInterval: real
    var lastReportTime: Option<real>

    /** No heartbeat, no state and no report yet; 10 s timeout and report interval. */
    constructor (devicePattern: string, configFile: string)
      ensures this.devicePattern == devicePattern && this.configFile == configFile
      ensures lastHeartbeatTime == None && currentState == None && lastReportTime == None
      ensures heartbeatTimeout == 10.0 && reportInterval == 10.0
    {
      this.devicePattern := devicePattern;
      this.configFile := configFile;
      lastHeartbeatTime := None;
      heartbeatTimeout := 10.0;
      currentState := None;
      reportInterval := 10.0;
      lastReportTime := None;
    }

    /** `discover_device` on the browser's output (`None` when the browser
        could not be run): the name field of the first line naming the device. */
    method DiscoverDevice(stdout: Option<string>) returns (name: Option<string>)
      ensures stdout.None? ==> name.None?
      ensures stdout.Some? ==> name == FirstDevice(Split(stdout.value, "\n"), devicePattern)
    {
      if stdout.None? {
        return None;
      }
      var lines := Split(stdout.value, "\n");
      var i := 0;
      while i < |lines|
        invariant 0 <= i <= |lines|
        invariant FirstDevice(lines[i..], devicePattern) == FirstDevice(lines, devicePattern)
      {
        var line := lines[i];
        FirstDeviceStep(lines, i, devicePattern);
        if Contains(Lower(line), devicePattern) && Contains(line, ServiceType) {
          var parts := Split(line, ";");
          if |parts| >= 4 {
            return Some(parts[3]);
          }
        }
        i := i + 1;
      }
      return None;
    }

    method UpdateState(newState: string)
      modifies this`currentState
      ensures currentState == Some(newState)
    {
      currentState := Some(newState);
    }

    /** `report_status` at time `now`: the word shown, and the report time. */
    method ReportStatus(now: real) returns (status: string)
      modifies this`lastReportTime
      ensures status == StatusWord(currentState)
      ensures lastReportTime == Some(now)
    {
      status := if currentState.Some? && currentState.value != [] then currentState.value else "unknown";
      lastReportTime := Some(now);
    }

    /** The start of `monitor_heartbeat`: the report clock starts at `now`. */
    method StartMonitoring(now: real)
      modifies this`lastReportTime
      ensures lastReportTime == Some(now)
    {
      lastReportTime := Some(now);
    }

    /** The heartbeat and state update for one log line read at `now`. */
    method ObserveLine(line: string, now: real)
      modifies this`lastHeartbeatTime, this`currentState
      ensures var r := StepState(MonitorState(old(lastHeartbeatTime), old(currentState), 0.0), line, now, heartbeatTimeout);
        lastHeartbeatTime == r.lastHeartbeat && currentState == r.current
    {
      ghost var s0 := MonitorState(lastHeartbeatTime, currentState, 0.0);
      var rate := HeartRate(line);
      ghost var r := StepOnRate(s0, rate, now, heartbeatTimeout);
      if rate.Some? {
        lastHeartbeatTime := Some(now);
        if RatePositive(rate.value) {
          UpdateState(Rooms.Occupied);
        }
      }
      if lastHeartbeatTime.Some? {
        if now - lastHeartbeatTime.value > heartbeatTimeout {
          UpdateState(Rooms.Empty);
          lastHeartbeatTime := None;
        }
      } else if currentState.None? {
        UpdateState(Rooms.Empty);
      }
    }

    /** One log line read at `now`: the heartbeat and state update, then a
        status report, stamped `reportClock`, when one is due. */
    method ProcessLine(line: string, now: real, reportClock: real) returns (report: Option<string>)
      requires lastReportTime.Some?
      modifies this`lastHeartbeatTime, this`currentState, this`lastReportTime
      ensures var r := Step(MonitorState(old(lastHeartbeatTime), old(currentState), old(lastReportTime).value),
                            line, now, reportClock, heartbeatTimeout, reportInterval);
        lastHeartbeatTime == r.0.lastHeartbeat && currentState == r.0.current
        && lastReportTime == Some(r.0.lastReport) && report == r.1
    {
      ghost var s := MonitorState(lastHeartbeatTime, currentState, lastReportTime.value);
      StepStateIgnoresReport(s, line, now, heartbeatTimeout);
      ObserveLine(line, now);
      report := None;
      if now - lastReportTime.value >= reportInterval {
        var status := ReportStatus(reportClock);
        report := Some(status);
      }
    }

    /** `monitor_heartbeat` over the log's lines, with the clock started at
        `start` and the times of each line as in `Run`. */
    method MonitorHeartbeat(lines: seq<string>, clock: seq<(real, real)>, start: real) returns (reports: seq<string>)
      requires |clock| == |lines|
      modifies this`lastHeartbeatTime, this`currentState, this`lastReportTime
      ensures var r := Run(MonitorState(old(lastHeartbeatTime), old(currentState), start),
                           lines, clock, heartbeatTimeout, reportInterval);
        lastHeartbeatTime == r.0.lastHeartbeat && currentState == r.0.current
        && lastReportTime == Some(r.0.lastReport) && reports == r.1
    {
      ghost var init := MonitorState(lastHeartbeatTime, currentState, start);
      StartMonitoring(start);
      reports := [];
      var i := 0;
      while i < |lines|
        invariant 0 <= i <= |lines|
        invariant var r := Run(init, lines[..i], clock[..i], heartbeatTimeout, reportInterval);
          lastHeartbeatTime == r.0.lastHeartbeat && currentState == r.0.current
          && lastReportTime == Some(r.0.lastReport) && reports == r.1
      {
        ghost var before := Run(init, lines[..i], clock[..i], heartbeatTimeout, reportInterval);
        RunSnoc(init, lines, clock, i, heartbeatTimeout, reportInterval);
        var report := ProcessLine(lines[i], clock[i].0, clock[i].1);
        if report.Some? {
          reports := reports + [report.value];
        }
        i := i + 1;
      }
      assert lines[..i] == lines && clock[..i] == clock;
    }
  }
}
