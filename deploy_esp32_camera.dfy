/** The pure decisions of the camera deployment script: how a port or host
    argument is normalised, whether it names a network target or a local
    serial device, how many upload attempts are made, the exact `/props`
    payload, and which configuration values are sent to the device.
    `urlparse(...).hostname` and `ipaddress.ip_address` are passed in as the
    functions `hostname` and `isIp`; the upload command and the HTTP calls
    are outside the model. */
module DeployEsp32 {
  import opened Wrappers
  import opened Text

  /** Python truthiness of an optional string: present and non-empty. */
  predicate Truthy(s: Option<string>) {
    s.Some? && s.value != []
  }

  /** The text up to its first '/', unless it starts with '/'. */
  function CutAtSlash(text: string): (r: string)
    requires text != []
    ensures r != [] && StartsWith(text, r)
    ensures text[0] == '/' ==> r == text
    ensures text[0] != '/' ==> '/' !in r && (r == text || text[|r|] == '/')
  {
    if '/' in text && text[0] != '/' then text[..FindChar(text, '/').value] else text
  }

  /** `normalize_host_like`: nothing for a missing or blank value; the URL's
      host name when the text looks like a URL and has one; otherwise the
      stripped text cut at its first '/' (a text starting with '/' is kept). */
  function NormalizeHostLike(value: Option<string>, hostname: string -> Option<string>): (r: Option<string>)
    ensures r.None? <==> value.None? || Strip(value.value) == []
    ensures r.Some? ==> r.value != []
    ensures r.Some? && Contains(Strip(value.value), "://") && Truthy(hostname(Strip(value.value))) ==>
              r == hostname(Strip(value.value))
    ensures r.Some? && !(Contains(Strip(value.value), "://") && Truthy(hostname(Strip(value.value)))) ==>
              r == Some(CutAtSlash(Strip(value.value)))
  {
    if value.None? then None
    else
      var text := Strip(value.value);
      if text == [] then None
      else if Contains(text, "://") && Truthy(hostname(text)) then hostname(text)
      else Some(CutAtSlash(text))
  }

  /** `is_network_target`: URLs are network targets; device paths and
      `COM` ports are not; otherwise an IP address, an mDNS `.local` name or
      any dotted name is. */
  function IsNetworkTarget(value: string, isIp: string -> bool, hostname: string -> Option<string>): (r: bool)
    ensures Contains(value, "://") ==> r
    ensures r && !Contains(value, "://") ==> NormalizeHostLike(Some(value), hostname).Some?
    ensures !Contains(value, "://") && NormalizeHostLike(Some(value), hostname).Some? ==>
              var n := NormalizeHostLike(Some(value), hostname).value;
              (StartsWith(n, "/dev/") || StartsWith(Upper(n), "COM") ==> !r)
              && (!StartsWith(n, "/dev/") && !StartsWith(Upper(n), "COM") ==> (r <==> isIp(n) || '.' in n))
  {
    if Contains(value, "://") then true
    else match NormalizeHostLike(Some(value), hostname)
      case None => false
      case Some(n) =>
        if StartsWith(n, "/dev/") then false
        else if StartsWith(Upper(n), "COM") then false
        else
          LocalNameIsDotted(n);
          isIp(n) || EndsWith(n, ".local") || '.' in n
  }

  /** An mDNS `.local` name is a dotted name, so the `.local` test never
      decides anything the dot test would not. */
  lemma LocalNameIsDotted(n: string)
    ensures EndsWith(n, ".local") ==> '.' in n
  {
    if EndsWith(n, ".local") {
      assert n[|n| - 6..][0] == '.';
    }
  }

  /** Stripping never creates a "://" that the value did not hold. */
  lemma StripKeepsNoUrl(value: string)
    requires !Contains(value, "://")
    ensures !Contains(Strip(value), "://")
  {
    var i, j := StripInfix(value);
    if Contains(Strip(value), "://") {
      ContainsInfix(value, i, j, "://");
    }
  }

  /** The URL parser is never consulted: whether a value is a network target
      does not depend on what `urlparse` would return. */
  lemma NetworkTargetIgnoresHostname(value: string, isIp: string -> bool, h1: string -> Option<string>, h2: string -> Option<string>)
    ensures IsNetworkTarget(value, isIp, h1) == IsNetworkTarget(value, isIp, h2)
  {
    if !Contains(value, "://") {
      StripKeepsNoUrl(value);
    }
  }

  /** Device paths such as `/dev/ttyUSB0` are local serial ports. */
  lemma DevicePathIsLocal(value: string, isIp: string -> bool, hostname: string -> Option<string>)
    requires !Contains(value, "://") && StartsWith(Strip(value), "/dev/")
    ensures !IsNetworkTarget(value, isIp, hostname)
  {
    StripKeepsNoUrl(value);
    var text := Strip(value);
    DevicePathStartsWithSlash(text);
    assert NormalizeHostLike(Some(value), hostname) == Some(text);
  }

  lemma DevicePathStartsWithSlash(text: string)
    requires StartsWith(text, "/dev/")
    ensures text != [] && text[0] == '/'
  {
    assert text[..5][0] == '/';
  }

  /** Cutting at the first '/' keeps a leading "COM" (in any case). */
  lemma CutKeepsComPrefix(text: string)
    requires |text| >= 3 && UpperChar(text[0]) == 'C' && UpperChar(text[1]) == 'O' && UpperChar(text[2]) == 'M'
    ensures StartsWith(Upper(CutAtSlash(text)), "COM")
  {
    var n := CutAtSlash(text);
    assert text[0] != '/' && text[1] != '/' && text[2] != '/';
    assert |n| >= 3;
    assert n[0] == text[0] && n[1] == text[1] && n[2] == text[2];
    assert Upper(n)[..3] == [UpperChar(n[0]), UpperChar(n[1]), UpperChar(n[2])];
  }

  /** A value whose stripped, upper-cased form starts with "COM" is a local
      serial port, even when it also looks like a dotted host name. */
  lemma ComPortIsLocal(value: string, isIp: string -> bool, hostname: string -> Option<string>)
    requires !Contains(value, "://")
    requires var t := Strip(value); |t| >= 3 && UpperChar(t[0]) == 'C' && UpperChar(t[1]) == 'O' && UpperChar(t[2]) == 'M'
    ensures !IsNetworkTarget(value, isIp, hostname)
  {
    StripKeepsNoUrl(value);
    CutKeepsComPrefix(Strip(value));
  }

  lemma ComExampleLocalIsLocal(isIp: string -> bool, hostname: string -> Option<string>)
    ensures !IsNetworkTarget("com.example.local", isIp, hostname)
  {
    ComExampleHasNoUrl();
    ComExampleIsStripped();
    ComPortIsLocal("com.example.local", isIp, hostname);
  }

  lemma ComExampleHasNoUrl()
    ensures !Contains("com.example.local", "://")
  {
    NotContainsChar("com.example.local", "://", 0, ':');
  }

  lemma ComExampleIsStripped()
    ensures Strip("com.example.local") == "com.example.local"
  {
    StripUnpadded("com.example.local");
  }

  /** The address check only matters for a name without a dot: a dotted
      name that is not a device path or `COM` port is a network target
      whatever `ip_address` says. */
  lemma IpCheckOnlyForDotlessNames(value: string, ip1: string -> bool, ip2: string -> bool, hostname: string -> Option<string>)
    requires IsNetworkTarget(value, ip1, hostname) != IsNetworkTarget(value, ip2, hostname)
    ensures !Contains(value, "://")
    ensures NormalizeHostLike(Some(value), hostname).Some?
    ensures '.' !in NormalizeHostLike(Some(value), hostname).value
    ensures ip1(NormalizeHostLike(Some(value), hostname).value) != ip2(NormalizeHostLike(Some(value), hostname).value)
  {
  }

  /** `max(1, retries)` */
  function AttemptLimit(retries: int): (n: nat)
    ensures n >= 1 && n >= retries
    ensures n == retries || (retries < 1 && n == 1)
  {
    if retries < 1 then 1 else retries
  }

  /** `run_command_with_retries`: the command (whose outcome on attempt `a`
      is `succeeds(a)`) is run until it succeeds or the attempt limit is
      reached; `ok` is false when the last failure is re-raised. */
  method RunCommandWithRetries(retries: int, succeeds: nat -> bool) returns (ok: bool, attempts: nat)
    ensures 1 <= attempts <= AttemptLimit(retries)
    ensures forall a :: 1 <= a < attempts ==> !succeeds(a)
    ensures ok <==> succeeds(attempts)
    ensures !ok ==> attempts == AttemptLimit(retries)
  {
    var limit := AttemptLimit(retries);
    var attempt := 1;
    while true
      invariant 1 <= attempt <= limit
      invariant forall a :: 1 <= a < attempt ==> !succeeds(a)
      decreases limit - attempt
    {
      if succeeds(attempt) {
        return true, attempt;
      }
      if attempt >= limit {
        return false, attempt;
      }
      attempt := attempt + 1;
    }
  }

  /** Replaces double quotes by single quotes, as the firmware's simple
      parser cannot read escaped quotes. */
  function Safe(s: string): (r: string)
    ensures '"' !in r
    ensures |r| == |s| && forall i :: 0 <= i < |s| && s[i] != '"' ==> r[i] == s[i]
    ensures forall i :: 0 <= i < |s| && s[i] == '"' ==> r[i] == '\''
  {
    ReplaceChar(s, '"', '\'')
  }

  /** The pieces of the `/props` payload between its double quotes. */
  function PayloadPieces(name: string, roomId: string, location: string, pollText: string): seq<string> {
    ["{", "name", ":", Safe(name), ",", "room_id", ":", Safe(roomId), ",", "location", ":", Safe(location), ",",
     "poll_interval", ":" + pollText + "}"]
  }

  /** The body `post_props` sends, `{"name":"…","room_id":"…","location":"…","poll_interval":…}`,
      with `pollText` the interval already formatted with one decimal. */
  function Payload(name: string, roomId: string, location: string, pollText: string): string
  {
    Join(PayloadPieces(name, roomId, location, pollText), '"')
  }

  /** Reading the payload back by splitting it at its double quotes gives the
      keys in the order name, room_id, location, poll_interval and the three
      text values with their double quotes replaced. */
  lemma PayloadFields(name: string, roomId: string, location: string, pollText: string)
    requires '"' !in pollText
    ensures var p := Split(Payload(name, roomId, location, pollText), "\"");
      && |p| == 15
      && p[1] == "name" && p[5] == "room_id" && p[9] == "location" && p[13] == "poll_interval"
      && p[3] == Safe(name) && p[7] == Safe(roomId) && p[11] == Safe(location)
      && p[14] == ":" + pollText + "}"
  {
    var pieces := PayloadPieces(name, roomId, location, pollText);
    PiecesQuoteFree(name, roomId, location, pollText);
    SplitJoin(pieces, '"');
  }

  lemma PiecesQuoteFree(name: string, roomId: string, location: string, pollText: string)
    requires '"' !in pollText
    ensures forall i :: 0 <= i < |PayloadPieces(name, roomId, location, pollText)| ==>
              '"' !in PayloadPieces(name, roomId, location, pollText)[i]
  {
    assert '"' !in ":" + pollText + "}";
  }

  /** Which address the configuration is sent to: the normalised device IP
      when one was given, otherwise the normalised port when the port is a
      network target, otherwise none (the configuration step is skipped). */
  function ConfigTarget(deviceIp: Option<string>, port: Option<string>, isIp: string -> bool,
                        hostname: string -> Option<string>): (r: Option<string>)
    ensures r.Some? ==> r.value != []
    ensures NormalizeHostLike(deviceIp, hostname).Some? ==> r == NormalizeHostLike(deviceIp, hostname)
    ensures NormalizeHostLike(deviceIp, hostname).None? ==>
              (r.Some? <==> port.Some? && NormalizeHostLike(port, hostname).Some? && IsNetworkTarget(port.value, isIp, hostname))
    ensures NormalizeHostLike(deviceIp, hostname).None? && r.Some? ==> r == NormalizeHostLike(port, hostname)
  {
    var device := if Truthy(deviceIp) then NormalizeHostLike(deviceIp, hostname) else None;
    var normalizedPort := if Truthy(port) then NormalizeHostLike(port, hostname) else None;
    if !Truthy(device) && Truthy(normalizedPort) && IsNetworkTarget(port.value, isIp, hostname) then normalizedPort
    else device
  }

  /** Values given on the command line; `None` when an option was not given. */
  datatype Overrides = Overrides(name: Option<string>, roomId: Option<string>, location: Option<string>,
                                 pollInterval: Option<real>)

  /** The device's `poll_interval` as `float()` sees it: a value it
      converts, or one it raises on (a non-numeric text, null, a list). */
  datatype PollValue = Number(value: real) | NotNumber

  /** What the device's `/props` reported: its text values by key (as `str()`
      renders them), and its poll interval when it reported one. */
  datatype DeviceProps = DeviceProps(fields: map<string, string>, pollInterval: Option<PollValue>)

  /** The configuration posted to the device. */
  datatype Props = Props(name: string, roomId: string, location: string, pollInterval: real)

  /** One text setting: the explicit value, else the device's, else the default. */
  function Setting(explicit: Option<string>, current: map<string, string>, key: string, default: string): (r: string)
    ensures explicit.Some? ==> r == explicit.value
    ensures explicit.None? && key in current ==> r == current[key]
    ensures explicit.None? && key !in current ==> r == default
  {
    if explicit.Some? then explicit.value else if key in current then current[key] else default
  }

  /** The configuration merge in `main`; `float()` raising on the device's
      poll interval aborts the run, which is the error result. */
  function MergeConfig(args: Overrides, current: DeviceProps): (r: Result<Props, string>)
    ensures r.Err? <==> args.pollInterval.None? && current.pollInterval == Some(NotNumber)
    ensures r.Ok? ==> r.value.name == Setting(args.name, current.fields, "name", "cam1")
    ensures r.Ok? ==> r.value.roomId == Setting(args.roomId, current.fields, "room_id", "unknown")
    ensures r.Ok? ==> r.value.location == Setting(args.location, current.fields, "location", "unknown")
    ensures r.Ok? && args.pollInterval.Some? ==> r.value.pollInterval == args.pollInterval.value
    ensures r.Ok? && args.pollInterval.None? && current.pollInterval.None? ==> r.value.pollInterval == 10.0
    ensures r.Ok? && args.pollInterval.None? && current.pollInterval.Some? ==>
              current.pollInterval.value == Number(r.value.pollInterval)
  {
    var poll :=
      if args.pollInterval.Some? then Ok(args.pollInterval.value)
      else match current.pollInterval
        case None => Ok(10.0)
        case Some(Number(v)) => Ok(v)
        case Some(NotNumber) => Err("could not convert poll_interval to float");
    if poll.Err? then Err(poll.error)
    else
      Ok(Props(Setting(args.name, current.fields, "name", "cam1"),
               Setting(args.roomId, current.fields, "room_id", "unknown"),
               Setting(args.location, current.fields, "location", "unknown"),
               poll.value))
  }

  /** What a device reports after it stored `p`. */
  function Stored(p: Props): (d: DeviceProps)
    ensures d.fields.Keys == {"name", "room_id", "location"} && d.pollInterval == Some(Number(p.pollInterval))
  {
    DeviceProps(map["name" := p.name, "room_id" := p.roomId, "location" := p.location], Some(Number(p.pollInterval)))
  }

  /** Deploying again with the same options to a device that kept the posted
      values posts the same values again. */
  lemma MergeIsStable(args: Overrides, current: DeviceProps)
    requires MergeConfig(args, current).Ok?
    ensures MergeConfig(args, Stored(MergeConfig(args, current).value)) == MergeConfig(args, current)
  {
  }

  /** With every option given, the device's current values do not matter,
      and a poll interval the device reports badly cannot abort the run. */
  lemma ExplicitOptionsWin(args: Overrides, c1: DeviceProps, c2: DeviceProps)
    requires args.name.Some? && args.roomId.Some? && args.location.Some? && args.pollInterval.Some?
    ensures MergeConfig(args, c1).Ok? && MergeConfig(args, c1) == MergeConfig(args, c2)
  {
  }
}
