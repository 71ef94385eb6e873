/** The two kinds of `nmap -sn` output line both discovery scanners read:
    the report line that names a live host and the line that gives its MAC
    address. Running nmap and splitting its output into lines are not
    modelled; the scanners receive the lines. */
module Nmap {
  import opened Wrappers
  import opened Text

  const ReportPrefix: string := "Nmap scan report for"

  /** The marker a MAC line is recognised by, and the separator its address
      is cut after (note the trailing space). */
  const MacMarker: string := "MAC Address:"
  const MacSeparator: string := "MAC Address: "

  const Parens: set<char> := {'(', ')'}

  predicate IsReportLine(line: string) {
    StartsWith(line, ReportPrefix)
  }

  function ReportCount(lines: seq<string>): nat {
    if lines == [] then 0
    else ReportCount(lines[..|lines| - 1]) + (if IsReportLine(lines[|lines| - 1]) then 1 else 0)
  }

  /** The host of a report line: its last whitespace-separated token with
      surrounding parentheses removed. */
  function ReportIp(line: string): (ip: string)
    requires IsReportLine(line)
    ensures NoSpace(ip)
    ensures ip == [] || (ip[0] !in Parens && ip[|ip| - 1] !in Parens)
  {
    assert line[0] == ReportPrefix[0];
    var words := Words(line);
    var last := words[|words| - 1];
    var ip := StripChars(last, Parens);
    StripCharsInfix(last, Parens);
    ip
  }

  lemma {:induction false} StripCharsInfix(s: string, chars: set<char>)
    requires NoSpace(s)
    ensures NoSpace(StripChars(s, chars))
    decreases |s|
  {
    if s != [] && s[0] in chars {
      StripCharsInfix(s[1..], chars);
    } else if s != [] && s[|s| - 1] in chars {
      StripCharsInfix(s[..|s| - 1], chars);
    }
  }

  /** The address of a MAC line, lower-cased: the first token after the
      separator. `None` where the source fails with an index error (the
      marker without the trailing space, or nothing after it). */
  function MacOf(line: string): (r: Option<string>)
    ensures r.Some? ==> r.value != [] && NoSpace(r.value) && Lower(r.value) == r.value
  {
    var parts := Split(line, MacSeparator);
    if |parts| < 2 then None
    else
      var words := Words(parts[1]);
      if words == [] then None
      else
        var mac := Lower(words[0]);
        assert forall i :: 0 <= i < |mac| ==> LowerChar(mac[i]) == mac[i];
        Some(mac)
  }

  /** A report line built from any text and a host, bare or in parentheses,
      gives that host back. */
  lemma ReportIpOfLine(middle: string, ip: string, bracketed: bool)
    requires ip != [] && NoSpace(ip) && ip[0] !in Parens && ip[|ip| - 1] !in Parens
    ensures var host := if bracketed then "(" + ip + ")" else ip;
      var line := ReportPrefix + middle + [' '] + host;
      IsReportLine(line) && ReportIp(line) == ip
  {
    var host := if bracketed then "(" + ip + ")" else ip;
    HostWord(ip, bracketed);
    LastWordOfReport(middle, host);
  }

  lemma LastWordOfReport(middle: string, host: string)
    requires host != [] && NoSpace(host)
    ensures var line := ReportPrefix + middle + [' '] + host;
      IsReportLine(line) && Words(line) != [] && Words(line)[|Words(line)| - 1] == host
  {
    var line := ReportPrefix + middle + [' '] + host;
    assert line[..|ReportPrefix|] == ReportPrefix;
    WordsSnoc(ReportPrefix + middle, host);
  }

  lemma {:induction false} HostWord(ip: string, bracketed: bool)
    requires ip != [] && NoSpace(ip) && ip[0] !in Parens && ip[|ip| - 1] !in Parens
    ensures var host := if bracketed then "(" + ip + ")" else ip;
      host != [] && NoSpace(host) && StripChars(host, Parens) == ip
  {
    if bracketed {
      BracketedStrip(ip);
      BracketedNoSpace(ip);
    }
  }

  lemma BracketedStrip(ip: string)
    requires ip != [] && ip[0] !in Parens && ip[|ip| - 1] !in Parens
    ensures StripChars("(" + ip + ")", Parens) == ip
  {
    var host := "(" + ip + ")";
    var tail := ip + ")";
    assert host[0] == '(' && host[1..] == tail;
    assert StripChars(host, Parens) == StripChars(tail, Parens);
    assert tail[0] == ip[0] && tail[|tail| - 1] == ')' && tail[..|ip|] == ip;
    assert StripChars(tail, Parens) == StripChars(ip, Parens);
  }

  lemma BracketedNoSpace(ip: string)
    requires NoSpace(ip)
    ensures NoSpace("(" + ip + ")")
  {
    var host := "(" + ip + ")";
    forall i | 0 <= i < |host| ensures !IsSpace(host[i]) {
      if 0 < i < |host| - 1 { assert host[i] == ip[i - 1]; }
    }
  }

  /** A MAC line as nmap prints it, `MAC Address: <mac> <vendor>`, gives the
      lower-cased address back. */
  lemma MacOfLine(mac: string, vendor: string)
    requires mac != [] && NoSpace(mac) && 'M' !in mac && 'M' !in vendor
    ensures MacOf(MacSeparator + mac + [' '] + vendor) == Some(Lower(mac))
  {
    var line := MacSeparator + mac + [' '] + vendor;
    var rest := mac + [' '] + vendor;
    assert line == MacSeparator + rest;
    assert StartsWith(line, MacSeparator);
    assert line[|MacSeparator|..] == rest;
    forall i: nat ensures !OccursAt(rest, MacSeparator, i) {
      if i < |rest| {
        assert rest[i] != 'M';
        if i + |MacSeparator| <= |rest| {
          assert rest[i..i + |MacSeparator|][0] == rest[i];
        }
      }
    }
    assert Split(rest, MacSeparator) == [rest];
    assert Split(line, MacSeparator) == [line[..0]] + [rest];
    WordsFirst(mac, vendor);
  }
}
