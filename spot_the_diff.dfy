/** The pure helpers of the changeset comparison script: the two file-name
    patterns, the choice of the newest baseline per (room, camera), the choice
    of the newest changeset, the MIME type of an image file and the numbered
    baseline lines of the prompt. A directory listing is a sequence of file
    names in listing order. */
module SpotTheDiff {
  import opened Wrappers
  import opened Text
  import opened Membership

  // ---------------------------------------------------------------- names

  /** `\d{8}_\d{6}(?:_\d+)?` */
  predicate IsTimestamp(ts: string) {
    && |ts| >= 15 && AllDigits(ts[..8]) && ts[8] == '_' && AllDigits(ts[9..15])
    && (|ts| == 15 || (|ts| >= 17 && ts[15] == '_' && AllDigits(ts[16..])))
  }

  /** `\.jpe?g` under IGNORECASE */
  predicate IsImageExtension(ext: string) {
    Lower(ext) == ".jpg" || Lower(ext) == ".jpeg"
  }

  /** `[^-]+` */
  predicate IsRoomId(room: string) {
    room != [] && '-' !in room
  }

  /** `.+`: any non-empty text without a line feed, dashes included */
  predicate IsCameraName(camera: string) {
    camera != [] && '\n' !in camera
  }

  const BaselineTags: set<string> := {"baseline"}
  const CaptureTags: set<string> := {"capture", "baseline"}

  datatype NameFields = NameFields(roomId: string, cameraName: string, timestamp: string)

  /** A name split into what the patterns see: the leading tag as written, the
      three groups, the extension as written, and whether the name carries the
      one trailing line feed that `$` lets through. */
  datatype NameParts = NameParts(tag: string, fields: NameFields, ext: string, newline: bool)

  predicate WellFormed(p: NameParts, tags: set<string>) {
    && Lower(p.tag) in tags
    && IsRoomId(p.fields.roomId)
    && IsCameraName(p.fields.cameraName)
    && IsTimestamp(p.fields.timestamp)
    && IsImageExtension(p.ext)
  }

  function Render(p: NameParts): string {
    p.tag + ['-'] + RenderBody(p) + (if p.newline then ['\n'] else [])
  }

  /** The text between the tag and the optional line feed: room, camera,
      timestamp and extension. */
  function RenderBody(p: NameParts): string {
    p.fields.roomId + ['-'] + (p.fields.cameraName + ['-'] + (p.fields.timestamp + p.ext))
  }

  /** The text before and after the first occurrence of `c`. */
  function CutFirst(s: string, c: char): (r: Option<(string, string)>)
    ensures r.Some? ==> s == r.value.0 + [c] + r.value.1 && c !in r.value.0
    ensures r.None? <==> c !in s
  {
    match FindChar(s, c)
    case None => None
    case Some(i) =>
      assert s == s[..i] + [c] + s[i + 1..];
      Some((s[..i], s[i + 1..]))
  }

  /** The text before and after the last occurrence of `c`. */
  function CutLast(s: string, c: char): (r: Option<(string, string)>)
    ensures r.Some? ==> s == r.value.0 + [c] + r.value.1 && c !in r.value.1
    ensures r.None? <==> c !in s
  {
    match LastIndexOf(s, c)
    case None => None
    case Some(i) =>
      assert s == s[..i] + [c] + s[i + 1..];
      Some((s[..i], s[i + 1..]))
  }

  lemma CutFirstAt(a: string, c: char, b: string)
    requires c !in a
    ensures CutFirst(a + [c] + b, c) == Some((a, b))
  {
    FindCharAt(a, c, b);
    var s := a + [c] + b;
    assert s[..|a|] == a && s[|a| + 1..] == b;
  }

  lemma CutLastAt(a: string, c: char, b: string)
    requires c !in b
    ensures CutLast(a + [c] + b, c) == Some((a, b))
  {
    LastIndexOfAt(a, c, b);
    var s := a + [c] + b;
    assert s[..|a|] == a && s[|a| + 1..] == b;
  }

  /** The timestamp runs to the first dot; the extension is the rest. */
  function SplitStamp(tail: string): (r: Option<(string, string)>)
    ensures r.Some? ==> tail == r.value.0 + r.value.1
  {
    match CutFirst(tail, '.')
    case None => None
    case Some(x) => Some((x.0, ['.'] + x.1))
  }

  /** The camera runs to the last dash. */
  function SplitCamera(s: string): (r: Option<(string, string, string)>)
    ensures r.Some? ==> s == r.value.0 + ['-'] + (r.value.1 + r.value.2)
  {
    match CutLast(s, '-')
    case None => None
    case Some(x) =>
      match SplitStamp(x.1)
      case None => None
      case Some(y) => Some((x.0, y.0, y.1))
  }

  /** The name without its optional trailing line feed, cut as the patterns
      cut it: the tag runs to the first dash, the room to the next one, the
      camera to the last dash, the timestamp to the first dot after it. */
  function SplitBody(body: string, newline: bool): (r: Option<NameParts>)
    ensures r.Some? ==> r.value.newline == newline
    ensures r.Some? ==> body == r.value.tag + ['-'] + RenderBody(r.value)
  {
    match CutFirst(body, '-')
    case None => None
    case Some(x) =>
      match CutFirst(x.1, '-')
      case None => None
      case Some(y) =>
        match SplitCamera(y.1)
        case None => None
        case Some(z) => Some(NameParts(x.0, NameFields(y.0, z.0, z.1), z.2, newline))
  }

  /** The patterns as a scanner. Whatever it returns renders back to the name
      and is well formed. */
  function ScanName(name: string, tags: set<string>): (r: Option<NameParts>)
    ensures r.Some? ==> WellFormed(r.value, tags) && Render(r.value) == name
  {
    var (body, newline) := DropNewline(name);
    match SplitBody(body, newline)
    case None => None
    case Some(p) => if WellFormed(p, tags) then Some(p) else None
  }

  /** `$` also matches before one final line feed. */
  function DropNewline(name: string): (r: (string, bool))
    ensures name == r.0 + (if r.1 then ['\n'] else [])
    ensures r.1 <==> |name| > 0 && name[|name| - 1] == '\n'
  {
    if |name| > 0 && name[|name| - 1] == '\n' then (name[..|name| - 1], true) else (name, false)
  }

  lemma LowerKeepsChar(s: string, c: char)
    requires !('A' <= c <= 'Z') && c !in Lower(s)
    ensures c !in s
  {
    forall i | 0 <= i < |s| ensures s[i] != c {
      assert Lower(s)[i] == LowerChar(s[i]);
    }
  }

  lemma {:induction false} ExtensionShape(ext: string)
    requires IsImageExtension(ext)
    ensures |ext| >= 4 && ext[0] == '.'
    ensures '-' !in ext && '.' !in ext[1..] && ext[|ext| - 1] != '\n'
  {
    assert Lower(ext)[0] == '.';
    assert Lower(ext)[|ext| - 1] == 'g';
    LowerKeepsChar(ext, '-');
    assert Lower(ext[1..]) == Lower(ext)[1..];
    LowerKeepsChar(ext[1..], '.');
  }

  lemma {:induction false} TimestampShape(ts: string)
    requires IsTimestamp(ts)
    ensures '-' !in ts && '.' !in ts && '\n' !in ts
  {
    forall i | 0 <= i < |ts| ensures ts[i] == '_' || IsDigit(ts[i]) {
      if i < 8 { assert ts[..8][i] == ts[i]; }
      else if 9 <= i < 15 { assert ts[9..15][i - 9] == ts[i]; }
      else if 16 <= i { assert ts[16..][i - 16] == ts[i]; }
    }
  }

  lemma {:induction false} TagShape(tag: string, tags: set<string>)
    requires tags <= CaptureTags && Lower(tag) in tags
    ensures '-' !in tag && tag != []
  {
    LowerKeepsChar(tag, '-');
  }

  /** Every well-formed name is recognised, with exactly its own parts: with
      the soundness of `ScanName`, the scanner accepts precisely the renderings
      of well-formed parts, and the parts are determined by the name. */
  lemma {:induction false} ScanRender(p: NameParts, tags: set<string>)
    requires tags <= CaptureTags && WellFormed(p, tags)
    ensures ScanName(Render(p), tags) == Some(p)
  {
    ExtensionShape(p.ext);
    TimestampShape(p.fields.timestamp);
    TagShape(p.tag, tags);
    DropRenderedNewline(p);
    SplitRendered(p);
  }

  lemma SplitRendered(p: NameParts)
    requires '-' !in p.tag && '-' !in p.fields.roomId
    requires '-' !in p.fields.timestamp && '.' !in p.fields.timestamp
    requires |p.ext| > 0 && p.ext[0] == '.' && '-' !in p.ext
    ensures SplitBody(p.tag + ['-'] + RenderBody(p), p.newline) == Some(p)
  {
    var f := p.fields;
    var tail := f.timestamp + p.ext;
    CutFirstAt(p.tag, '-', RenderBody(p));
    CutFirstAt(f.roomId, '-', f.cameraName + ['-'] + tail);
    SplitCameraRendered(f.cameraName, f.timestamp, p.ext);
  }

  lemma SplitCameraRendered(camera: string, ts: string, ext: string)
    requires '-' !in ts && '.' !in ts
    requires |ext| > 0 && ext[0] == '.' && '-' !in ext
    ensures SplitCamera(camera + ['-'] + (ts + ext)) == Some((camera, ts, ext))
  {
    var tail := ts + ext;
    assert '-' !in tail;
    CutLastAt(camera, '-', tail);
    SplitStampRendered(ts, ext);
  }

  lemma SplitStampRendered(ts: string, ext: string)
    requires '.' !in ts && |ext| > 0 && ext[0] == '.'
    ensures SplitStamp(ts + ext) == Some((ts, ext))
  {
    assert ts + ext == ts + ['.'] + ext[1..];
    CutFirstAt(ts, '.', ext[1..]);
    assert ['.'] + ext[1..] == ext;
  }

  lemma DropRenderedNewline(p: NameParts)
    requires IsImageExtension(p.ext)
    ensures DropNewline(Render(p)) == (p.tag + ['-'] + RenderBody(p), p.newline)
  {
    ExtensionShape(p.ext);
    var body := p.tag + ['-'] + RenderBody(p);
    var name := Render(p);
    assert name == body + (if p.newline then ['\n'] else []);
    if !p.newline {
      var rb := RenderBody(p);
      assert rb[|rb| - 1] == p.ext[|p.ext| - 1];
      assert name == body;
      assert name[|name| - 1] == rb[|rb| - 1];
      assert !(|name| > 0 && name[|name| - 1] == '\n');
    } else {
      assert name[..|name| - 1] == body;
    }
  }

  /** `parse_baseline_name`: the groups of the baseline pattern, if it matches. */
  function ParseBaselineName(name: string): (r: Option<NameFields>)
    ensures r.Some? ==> IsRoomId(r.value.roomId) && IsCameraName(r.value.cameraName) && IsTimestamp(r.value.timestamp)
  {
    match ScanName(name, BaselineTags)
    case None => None
    case Some(p) => Some(p.fields)
  }

  /** `parse_capture_name`: the tag as written and the groups of the capture
      pattern, if it matches. */
  function ParseCaptureName(name: string): (r: Option<(string, NameFields)>)
    ensures r.Some? ==> Lower(r.value.0) in CaptureTags
    ensures r.Some? ==> IsRoomId(r.value.1.roomId) && IsCameraName(r.value.1.cameraName) && IsTimestamp(r.value.1.timestamp)
  {
    match ScanName(name, CaptureTags)
    case None => None
    case Some(p) => Some((p.tag, p.fields))
  }

  /** A room without dashes, any non-empty camera name (dashes allowed) and a
      well-formed timestamp come back out of a `.jpeg` baseline name unchanged. */
  lemma BaselineRoundTrip(room: string, camera: string, ts: string)
    requires IsRoomId(room) && IsCameraName(camera) && IsTimestamp(ts)
    ensures ParseBaselineName("baseline-" + room + "-" + camera + "-" + ts + ".jpeg") == Some(NameFields(room, camera, ts))
  {
    var p := NameParts("baseline", NameFields(room, camera, ts), ".jpeg", false);
    LiteralsWellFormed();
    ScanRender(p, BaselineTags);
    RenderLiteral(room, camera, ts);
  }

  lemma LiteralsWellFormed()
    ensures Lower("baseline") in BaselineTags && IsImageExtension(".jpeg")
  {
    assert Lower("baseline") == "baseline";
    assert Lower(".jpeg") == ".jpeg";
  }

  lemma RenderLiteral(room: string, camera: string, ts: string)
    ensures Render(NameParts("baseline", NameFields(room, camera, ts), ".jpeg", false))
         == "baseline-" + room + "-" + camera + "-" + ts + ".jpeg"
  {
    assert "baseline-" == "baseline" + ['-'];
    assert "-" == ['-'];
  }

  /** The capture pattern accepts both tags in any letter case; the baseline
      pattern accepts exactly the capture matches whose tag is `baseline`. */
  lemma CaptureAcceptsBaselines(name: string)
    ensures ParseBaselineName(name).Some? <==> ParseCaptureName(name).Some? && Lower(ParseCaptureName(name).value.0) == "baseline"
  {
    match ScanName(name, CaptureTags)
    case None =>
      if ScanName(name, BaselineTags).Some? {
        ScanRender(ScanName(name, BaselineTags).value, CaptureTags);
        assert false;
      }
    case Some(p) =>
      if Lower(p.tag) == "baseline" {
        ScanRender(p, BaselineTags);
      } else if ScanName(name, BaselineTags).Some? {
        var q := ScanName(name, BaselineTags).value;
        ScanRender(q, CaptureTags);
        assert false;
      }
  }

  // ------------------------------------------------------------ ordering

  /** Python's `<` on `str`: by code point, a proper prefix first. */
  predicate StrLt(a: string, b: string)
    decreases |a|
  {
    if a == [] then b != []
    else b != [] && (a[0] < b[0] || (a[0] == b[0] && StrLt(a[1..], b[1..])))
  }

  lemma {:induction false} StrLtIrreflexive(a: string)
    ensures !StrLt(a, a)
  {
    if a != [] {
      StrLtIrreflexive(a[1..]);
    }
  }

  lemma {:induction false} StrLtTransitive(a: string, b: string, c: string)
    requires StrLt(a, b) && StrLt(b, c)
    ensures StrLt(a, c)
    decreases |a|
  {
    if a != [] && a[0] == b[0] && b[0] == c[0] {
      StrLtTransitive(a[1..], b[1..], c[1..]);
    }
  }

  lemma {:induction false} StrLtTotal(a: string, b: string)
    ensures a == b || StrLt(a, b) || StrLt(b, a)
    decreases |a|
  {
    if a != [] && b != [] && a[0] == b[0] {
      StrLtTotal(a[1..], b[1..]);
      assert a == [a[0]] + a[1..] && b == [b[0]] + b[1..];
    }
  }

  /** Not greater, then strictly smaller than anything greater. */
  lemma StrLtNotGreater(a: string, b: string, c: string)
    requires !StrLt(b, a) && StrLt(b, c)
    ensures StrLt(a, c)
  {
    StrLtTotal(a, b);
    if StrLt(a, b) {
      StrLtTransitive(a, b, c);
    }
  }

  // ------------------------------------------------------------ baselines

  /** A baseline file as the selection sees it; `location` comes from the
      camera-location table, keyed by camera name only. */
  datatype Baseline = Baseline(file: string, roomId: string, cameraName: string, timestamp: string, location: Option<string>)

  function Key(b: Baseline): (string, string) {
    (b.roomId, b.cameraName)
  }

  const BaselinePrefix := "baseline-"
  const CapturePrefix := "capture-"

  /** `glob(prefix + "*.jp*")` on one name: the prefix exactly as written,
      then `.jp` somewhere after it. */
  predicate GlobMatch(name: string, prefix: string) {
    StartsWith(name, prefix) && Contains(name[|prefix|..], ".jp")
  }

  /** The room filter: an absent or empty room id lets everything through. */
  predicate InScope(roomId: Option<string>, found: string) {
    roomId.None? || roomId.value == [] || found == roomId.value
  }

  /** The baseline a listed name contributes, if any. */
  function BaselineCandidate(name: string, roomId: Option<string>, locations: map<string, Option<string>>): (r: Option<Baseline>)
    ensures r.Some? ==> r.value.file == name && InScope(roomId, r.value.roomId) && GlobMatch(name, BaselinePrefix)
    ensures r.Some? ==> ParseBaselineName(name) == Some(NameFields(r.value.roomId, r.value.cameraName, r.value.timestamp))
    ensures r.Some? ==> r.value.location == if r.value.cameraName in locations then locations[r.value.cameraName] else None
    ensures r.None? <==> !GlobMatch(name, BaselinePrefix) || ParseBaselineName(name).None?
                         || !InScope(roomId, ParseBaselineName(name).value.roomId)
  {
    if !GlobMatch(name, BaselinePrefix) then None
    else match ParseBaselineName(name)
      case None => None
      case Some(f) =>
        if !InScope(roomId, f.roomId) then None
        else
          var location := if f.cameraName in locations then locations[f.cameraName] else None;
          Some(Baseline(name, f.roomId, f.cameraName, f.timestamp, location))
  }

  /** What each listed name contributes, position by position. */
  function BaselineResults(names: seq<string>, roomId: Option<string>, locations: map<string, Option<string>>)
    : (r: seq<Option<Baseline>>)
    ensures |r| == |names|
    ensures forall i :: 0 <= i < |names| ==> r[i] == BaselineCandidate(names[i], roomId, locations)
  {
    seq(|names|, i requires 0 <= i < |names| => BaselineCandidate(names[i], roomId, locations))
  }

  /** The baselines of a listing that survive the glob, the pattern and the
      room filter, in listing order. */
  function Candidates(names: seq<string>, roomId: Option<string>, locations: map<string, Option<string>>): (c: seq<Baseline>)
    ensures forall k :: 0 <= k < |c| ==> InScope(roomId, c[k].roomId)
  {
    var results := BaselineResults(names, roomId, locations);
    var c := Somes(results);
    assert forall k :: 0 <= k < |c| ==> InScope(roomId, c[k].roomId) by {
      forall k | 0 <= k < |c| ensures InScope(roomId, c[k].roomId) {
        var i :| 0 <= i < |results| && results[i] == Some(c[k]);
      }
    }
    c
  }

  /** Position of the entry with the given key (a dictionary lookup). */
  function KeyIndex(acc: seq<Baseline>, key: (string, string)): (r: Option<nat>)
    ensures r.Some? ==> r.value < |acc| && Key(acc[r.value]) == key
    ensures r.None? <==> forall i :: 0 <= i < |acc| ==> Key(acc[i]) != key
  {
    if acc == [] then None
    else if Key(acc[0]) == key then Some(0)
    else match KeyIndex(acc[1..], key)
      case None => None
      case Some(i) => Some(i + 1)
  }

  /** One update of the newest-per-key dictionary, which keeps insertion order:
      a new key goes to the end, a strictly newer timestamp replaces in place. */
  function Step(acc: seq<Baseline>, b: Baseline): seq<Baseline> {
    match KeyIndex(acc, Key(b))
    case None => acc + [b]
    case Some(i) => if StrLt(acc[i].timestamp, b.timestamp) then acc[i := b] else acc
  }

  function LatestOf(c: seq<Baseline>): seq<Baseline> {
    if c == [] then [] else Step(LatestOf(c[..|c| - 1]), c[|c| - 1])
  }

  predicate UniqueKeys(s: seq<Baseline>) {
    forall i, j :: 0 <= i < j < |s| ==> Key(s[i]) != Key(s[j])
  }

  function Keys(s: seq<Baseline>): set<(string, string)> {
    set i | 0 <= i < |s| :: Key(s[i])
  }

  /** Candidate `k` has the greatest timestamp for its key, and every earlier
      candidate with that key is strictly older: the first one seen wins ties. */
  predicate IsBest(c: seq<Baseline>, k: int) {
    && 0 <= k < |c|
    && forall j :: 0 <= j < |c| && Key(c[j]) == Key(c[k]) ==>
         (j < k ==> StrLt(c[j].timestamp, c[k].timestamp)) && (k < j ==> !StrLt(c[k].timestamp, c[j].timestamp))
  }

  ghost predicate AllBest(c: seq<Baseline>, r: seq<Baseline>) {
    forall i :: 0 <= i < |r| ==> exists k :: IsBest(c, k) && c[k] == r[i]
  }

  lemma StepKeys(acc: seq<Baseline>, b: Baseline)
    requires UniqueKeys(acc)
    ensures UniqueKeys(Step(acc, b))
    ensures Keys(Step(acc, b)) == Keys(acc) + {Key(b)}
  {
    var r := Step(acc, b);
    match KeyIndex(acc, Key(b))
    case None =>
      assert forall i :: 0 <= i < |acc| ==> r[i] == acc[i];
      assert Keys(r) == Keys(acc) + {Key(b)} by {
        forall key | key in Keys(r) ensures key in Keys(acc) + {Key(b)} {
          var i :| 0 <= i < |r| && Key(r[i]) == key;
          if i < |acc| { assert Key(acc[i]) == key; }
        }
        assert Key(r[|acc|]) == Key(b);
        forall key | key in Keys(acc) ensures key in Keys(r) {
          var i :| 0 <= i < |acc| && Key(acc[i]) == key;
          assert Key(r[i]) == key;
        }
      }
    case Some(x) =>
      assert forall i :: 0 <= i < |acc| ==> Key(r[i]) == Key(acc[i]);
      assert Keys(r) == Keys(acc) by {
        forall key | key in Keys(r) ensures key in Keys(acc) {
          var i :| 0 <= i < |r| && Key(r[i]) == key;
          assert Key(acc[i]) == key;
        }
        forall key | key in Keys(acc) ensures key in Keys(r) {
          var i :| 0 <= i < |acc| && Key(acc[i]) == key;
          assert Key(r[i]) == key;
        }
      }
  }

  /** Adding a candidate keeps an earlier best candidate best unless it is
      strictly older than the new one with the same key. */
  lemma BestExtends(c: seq<Baseline>, b: Baseline, k: int)
    requires IsBest(c, k)
    requires Key(b) == Key(c[k]) ==> !StrLt(c[k].timestamp, b.timestamp)
    ensures IsBest(c + [b], k)
  {
    var c' := c + [b];
    forall j | 0 <= j < |c'| && Key(c'[j]) == Key(c'[k])
      ensures (j < k ==> StrLt(c'[j].timestamp, c'[k].timestamp)) && (k < j ==> !StrLt(c'[k].timestamp, c'[j].timestamp))
    {
      if j < |c| { assert c'[j] == c[j]; }
    }
  }

  /** The candidate an entry of a best-per-key table comes from. */
  lemma BestOf(c: seq<Baseline>, r: seq<Baseline>, i: nat) returns (k: int)
    requires AllBest(c, r) && i < |r|
    ensures IsBest(c, k) && c[k] == r[i]
  {
    var e := r[i];
    assert exists k :: IsBest(c, k) && c[k] == e;
    k :| IsBest(c, k) && c[k] == e;
  }

  lemma StepBest(c: seq<Baseline>, acc: seq<Baseline>, b: Baseline)
    requires UniqueKeys(acc) && Keys(acc) == Keys(c) && AllBest(c, acc)
    ensures AllBest(c + [b], Step(acc, b))
  {
    var c' := c + [b];
    var n := |c|;
    var r := Step(acc, b);
    match KeyIndex(acc, Key(b))
    case None =>
      StepBestAppend(c, acc, b);
    case Some(x) =>
      if StrLt(acc[x].timestamp, b.timestamp) {
        StepBestReplace(c, acc, b, x);
      } else {
        forall i | 0 <= i < |r| ensures exists k :: IsBest(c', k) && c'[k] == r[i] {
          var k := BestOf(c, acc, i);
          assert Key(b) == Key(acc[i]) ==> i == x;
          BestExtends(c, b, k);
          assert c'[k] == r[i];
        }
        assert forall i :: 0 <= i < |r| ==> exists k :: IsBest(c', k) && c'[k] == r[i];
      }
  }

  lemma StepBestAppend(c: seq<Baseline>, acc: seq<Baseline>, b: Baseline)
    requires Keys(acc) == Keys(c) && AllBest(c, acc)
    requires forall i :: 0 <= i < |acc| ==> Key(acc[i]) != Key(b)
    ensures AllBest(c + [b], acc + [b])
  {
    var c' := c + [b];
    var n := |c|;
    var r := acc + [b];
    forall i | 0 <= i < |acc| ensures exists k :: IsBest(c', k) && c'[k] == r[i] {
      var k := BestOf(c, acc, i);
      BestExtends(c, b, k);
      assert c'[k] == r[i];
    }
    assert Key(b) !in Keys(c);
    forall j | 0 <= j < n ensures Key(c'[j]) != Key(b) {
      assert c'[j] == c[j];
      assert Key(c[j]) in Keys(c);
    }
    assert IsBest(c', n) && c'[n] == r[|acc|];
    assert forall i :: 0 <= i < |r| ==> exists k :: IsBest(c', k) && c'[k] == r[i];
    assert AllBest(c', r);
  }

  lemma StepBestReplace(c: seq<Baseline>, acc: seq<Baseline>, b: Baseline, x: nat)
    requires UniqueKeys(acc) && AllBest(c, acc)
    requires x < |acc| && Key(acc[x]) == Key(b) && StrLt(acc[x].timestamp, b.timestamp)
    ensures AllBest(c + [b], acc[x := b])
  {
    var c' := c + [b];
    var n := |c|;
    var r := acc[x := b];
    forall i | 0 <= i < |r| ensures exists k :: IsBest(c', k) && c'[k] == r[i] {
      if i != x {
        var k := BestOf(c, acc, i);
        assert Key(acc[i]) != Key(acc[x]);
        BestExtends(c, b, k);
        assert c'[k] == r[i];
      } else {
        var k := BestOf(c, acc, x);
        forall j | 0 <= j < |c'| && Key(c'[j]) == Key(c'[n])
          ensures j < n ==> StrLt(c'[j].timestamp, c'[n].timestamp)
        {
          if j < n {
            assert c'[j] == c[j];
            if j < k {
              StrLtTransitive(c[j].timestamp, acc[x].timestamp, b.timestamp);
            } else if k < j {
              StrLtNotGreater(c[j].timestamp, acc[x].timestamp, b.timestamp);
            }
          }
        }
        assert IsBest(c', n);
      }
    }
    assert forall i :: 0 <= i < |r| ==> exists k :: IsBest(c', k) && c'[k] == r[i];
    assert AllBest(c', r);
  }

  /** The newest-per-key dictionary holds one entry for each key among the
      candidates, and each entry is the best candidate for its key. */
  lemma {:induction false} LatestOfProperties(c: seq<Baseline>)
    ensures UniqueKeys(LatestOf(c))
    ensures Keys(LatestOf(c)) == Keys(c)
    ensures AllBest(c, LatestOf(c))
  {
    if c != [] {
      var n := |c| - 1;
      var front := c[..n];
      LatestOfProperties(front);
      StepKeys(LatestOf(front), c[n]);
      StepBest(front, LatestOf(front), c[n]);
      assert front + [c[n]] == c;
      KeysSnoc(front, c[n]);
    }
  }

  lemma KeysSnoc(s: seq<Baseline>, b: Baseline)
    ensures Keys(s + [b]) == Keys(s) + {Key(b)}
  {
    var c := s + [b];
    forall key | key in Keys(c) ensures key in Keys(s) + {Key(b)} {
      var i :| 0 <= i < |c| && Key(c[i]) == key;
      if i < |s| { assert Key(s[i]) == key; }
    }
    forall key | key in Keys(s) ensures key in Keys(c) {
      var i :| 0 <= i < |s| && Key(s[i]) == key;
      assert Key(c[i]) == key;
    }
    assert Key(c[|s|]) == Key(b);
  }

  // ------------------------------------------------------------ sorting

  /** Python's `<` on `(room_id, camera_name)` tuples. */
  predicate KeyLt(x: Baseline, y: Baseline) {
    StrLt(x.roomId, y.roomId) || (x.roomId == y.roomId && StrLt(x.cameraName, y.cameraName))
  }

  lemma KeyLtTransitive(x: Baseline, y: Baseline, z: Baseline)
    requires KeyLt(x, y) && KeyLt(y, z)
    ensures KeyLt(x, z)
  {
    if StrLt(x.roomId, y.roomId) && StrLt(y.roomId, z.roomId) {
      StrLtTransitive(x.roomId, y.roomId, z.roomId);
    } else if x.roomId == y.roomId && y.roomId == z.roomId {
      StrLtTransitive(x.cameraName, y.cameraName, z.cameraName);
    }
  }

  lemma KeyLtIrreflexive(x: Baseline)
    ensures !KeyLt(x, x)
  {
    StrLtIrreflexive(x.roomId);
    StrLtIrreflexive(x.cameraName);
  }

  predicate SortedByKey(s: seq<Baseline>) {
    forall i, j :: 0 <= i < j < |s| ==> !KeyLt(s[j], s[i])
  }

  /** Insertion after every entry that is not greater: stable. */
  function InsertByKey(s: seq<Baseline>, x: Baseline): (r: seq<Baseline>)
    requires SortedByKey(s)
    ensures SortedByKey(r)
    ensures multiset(r) == multiset(s) + multiset{x}
  {
    if s == [] then [x]
    else if KeyLt(x, s[0]) then
      InsertFrontSorted(s, x);
      assert s == [s[0]] + s[1..];
      [x] + s
    else
      var rest := InsertByKey(s[1..], x);
      InsertBehindSorted(s, x, rest);
      assert s == [s[0]] + s[1..];
      [s[0]] + rest
  }

  lemma InsertFrontSorted(s: seq<Baseline>, x: Baseline)
    requires SortedByKey(s) && s != [] && KeyLt(x, s[0])
    ensures SortedByKey([x] + s)
  {
    forall j | 0 <= j < |s| ensures !KeyLt(s[j], x) {
      if KeyLt(s[j], x) {
        KeyLtTransitive(s[j], x, s[0]);
        KeyLtIrreflexive(s[0]);
      }
    }
    var t := [x] + s;
    forall i, j | 0 <= i < j < |t| ensures !KeyLt(t[j], t[i]) {
      assert t[j] == s[j - 1];
      if i > 0 { assert t[i] == s[i - 1]; }
    }
  }

  lemma InsertBehindSorted(s: seq<Baseline>, x: Baseline, rest: seq<Baseline>)
    requires SortedByKey(s) && s != [] && !KeyLt(x, s[0])
    requires SortedByKey(rest) && multiset(rest) == multiset(s[1..]) + multiset{x}
    ensures SortedByKey([s[0]] + rest)
  {
    forall j | 0 <= j < |rest| ensures !KeyLt(rest[j], s[0]) {
      assert rest[j] in multiset(rest);
      if rest[j] != x {
        assert rest[j] in multiset(s[1..]);
        var m :| 0 <= m < |s[1..]| && s[1..][m] == rest[j];
        assert s[m + 1] == rest[j];
      }
    }
    var t := [s[0]] + rest;
    forall i, j | 0 <= i < j < |t| ensures !KeyLt(t[j], t[i]) {
      assert t[j] == rest[j - 1];
      if i > 0 { assert t[i] == rest[i - 1]; }
    }
  }

  /** `sorted(..., key=lambda b: (b.room_id, b.camera_name))` */
  function SortByKey(s: seq<Baseline>): (r: seq<Baseline>)
    ensures SortedByKey(r)
    ensures multiset(r) == multiset(s)
  {
    if s == [] then []
    else
      assert s == s[..|s| - 1] + [s[|s| - 1]];
      InsertByKey(SortByKey(s[..|s| - 1]), s[|s| - 1])
  }

  lemma RepeatCountsTwice<T>(s: seq<T>, i: nat, j: nat)
    requires i < j < |s|
    ensures s[i] == s[j] ==> multiset(s)[s[i]] >= 2
  {
    assert s == s[..j] + s[j..];
    assert s[i] in s[..j] && s[j] in s[j..];
    assert multiset(s)[s[i]] == multiset(s[..j])[s[i]] + multiset(s[j..])[s[i]];
  }

  lemma PermutationKeepsUniqueKeys(a: seq<Baseline>, b: seq<Baseline>)
    requires UniqueKeys(a) && multiset(a) == multiset(b)
    ensures UniqueKeys(b)
    ensures Keys(a) == Keys(b)
  {
    forall i, j | 0 <= i < j < |b| ensures Key(b[i]) != Key(b[j]) {
      assert b[i] in multiset(a) && b[j] in multiset(a);
      var p :| 0 <= p < |a| && a[p] == b[i];
      var q :| 0 <= q < |a| && a[q] == b[j];
      assert NoDuplicates(a) by {
        forall u, v | 0 <= u < v < |a| ensures a[u] != a[v] { assert Key(a[u]) != Key(a[v]); }
      }
      NoDuplicatesCountsOnce(a, b[i]);
      RepeatCountsTwice(b, i, j);
      assert p != q;
    }
    forall key | key in Keys(a) ensures key in Keys(b) {
      var i :| 0 <= i < |a| && Key(a[i]) == key;
      assert a[i] in multiset(b);
      var k :| 0 <= k < |b| && b[k] == a[i];
    }
    forall key | key in Keys(b) ensures key in Keys(a) {
      var i :| 0 <= i < |b| && Key(b[i]) == key;
      assert b[i] in multiset(a);
      var k :| 0 <= k < |a| && a[k] == b[i];
    }
  }

  /** `select_latest_baselines` over a listing and the camera-location table:
      one entry per (room, camera) key found among the matching baselines,
      each the best candidate for its key, all within the requested room,
      sorted by key. */
  method SelectLatestBaselines(names: seq<string>, roomId: Option<string>, locations: map<string, Option<string>>)
    returns (r: seq<Baseline>)
    ensures multiset(r) == multiset(LatestOf(Candidates(names, roomId, locations)))
    ensures SortedByKey(r) && UniqueKeys(r)
    ensures Keys(r) == Keys(Candidates(names, roomId, locations))
    ensures AllBest(Candidates(names, roomId, locations), r)
    ensures forall i :: 0 <= i < |r| ==> InScope(roomId, r[i].roomId)
  {
    var latest := CollectLatest(names, roomId, locations);
    r := SortByKey(latest);
    ghost var c := Candidates(names, roomId, locations);
    SelectionFacts(c, latest, r);
    assert AllBest(c, r);
    forall i | 0 <= i < |r| ensures InScope(roomId, r[i].roomId) {
      var k :| 0 <= k < |c| && c[k] == r[i];
    }
  }

  /** The loop of `select_latest_baselines` that fills the newest-per-key
      dictionary (kept as a list in insertion order). */
  method CollectLatest(names: seq<string>, roomId: Option<string>, locations: map<string, Option<string>>)
    returns (latest: seq<Baseline>)
    ensures latest == LatestOf(Candidates(names, roomId, locations))
  {
    var results := BaselineResults(names, roomId, locations);
    ghost var seen: seq<Baseline> := [];
    latest := [];
    var i := 0;
    while i < |names|
      invariant 0 <= i <= |names|
      invariant seen == Somes(results[..i])
      invariant latest == LatestOf(seen)
    {
      SomesSnoc(results, i);
      var candidate := results[i];
      if candidate.Some? {
        LatestOfSnoc(seen, candidate.value);
        latest := Offer(latest, candidate.value);
        seen := seen + [candidate.value];
      }
      i := i + 1;
    }
    assert results[..i] == results;
  }

  /** The body of the loop for one parsed baseline: keep the current entry
      for its key unless the new one has a strictly greater timestamp. */
  method Offer(latest: seq<Baseline>, b: Baseline) returns (next: seq<Baseline>)
    ensures next == Step(latest, b)
  {
    next := latest;
    var current := KeyIndex(latest, Key(b));
    if current.None? {
      next := latest + [b];
    } else if StrLt(latest[current.value].timestamp, b.timestamp) {
      next := latest[current.value := b];
    }
  }

  lemma LatestOfSnoc(c: seq<Baseline>, b: Baseline)
    ensures LatestOf(c + [b]) == Step(LatestOf(c), b)
  {
    assert (c + [b])[..|c|] == c;
  }

  /** What a reordering of the newest-per-key dictionary still satisfies. */
  lemma SelectionFacts(c: seq<Baseline>, latest: seq<Baseline>, r: seq<Baseline>)
    requires latest == LatestOf(c) && multiset(r) == multiset(latest)
    ensures UniqueKeys(r) && Keys(r) == Keys(c)
    ensures forall i :: 0 <= i < |r| ==> r[i] in c
    ensures AllBest(c, r)
  {
    LatestOfProperties(c);
    PermutationKeepsUniqueKeys(latest, r);
    forall j | 0 <= j < |r| ensures exists k :: IsBest(c, k) && c[k] == r[j] {
      assert r[j] in multiset(latest);
      var m :| 0 <= m < |latest| && latest[m] == r[j];
      var k := BestOf(c, latest, m);
      assert r[j] in c;
    }
  }

  // ------------------------------------------------------------ changeset

  /** The `(timestamp, file)` pair a listed name contributes, if any. */
  function CaptureCandidate(name: string, roomId: Option<string>): (r: Option<(string, string)>)
    ensures r.Some? ==> r.value.1 == name && GlobMatch(name, CapturePrefix) && ParseCaptureName(name).Some?
    ensures r.Some? ==> InScope(roomId, ParseCaptureName(name).value.1.roomId)
    ensures r.Some? ==> r.value.0 == ParseCaptureName(name).value.1.timestamp
    ensures r.None? <==> !GlobMatch(name, CapturePrefix) || ParseCaptureName(name).None?
                         || !InScope(roomId, ParseCaptureName(name).value.1.roomId)
  {
    if !GlobMatch(name, CapturePrefix) then None
    else match ParseCaptureName(name)
      case None => None
      case Some((_, f)) => if InScope(roomId, f.roomId) then Some((f.timestamp, name)) else None
  }

  function CaptureResults(names: seq<string>, roomId: Option<string>): (r: seq<Option<(string, string)>>)
    ensures |r| == |names|
    ensures forall i :: 0 <= i < |names| ==> r[i] == CaptureCandidate(names[i], roomId)
  {
    seq(|names|, i requires 0 <= i < |names| => CaptureCandidate(names[i], roomId))
  }

  /** The `(timestamp, file)` pairs of the matching captures, in listing order. */
  function CaptureCandidates(names: seq<string>, roomId: Option<string>): seq<(string, string)> {
    Somes(CaptureResults(names, roomId))
  }

  /** Entry `k` has a greatest timestamp and is the first such (what `max`
      with a key function returns). */
  predicate IsFirstMax(c: seq<(string, string)>, k: int) {
    && 0 <= k < |c|
    && forall j :: 0 <= j < |c| ==>
         (j < k ==> StrLt(c[j].0, c[k].0)) && (k < j ==> !StrLt(c[k].0, c[j].0))
  }

  /** `pick_latest_changeset`: nothing when no capture matches, otherwise the
      first capture with a greatest timestamp, within the requested room. */
  method PickLatestChangeset(names: seq<string>, roomId: Option<string>) returns (r: Option<string>)
    ensures r.None? <==> forall i :: 0 <= i < |names| ==> CaptureCandidate(names[i], roomId).None?
    ensures r.Some? ==> CaptureCandidate(r.value, roomId).Some?
    ensures r.Some? ==> exists k :: IsFirstMax(CaptureCandidates(names, roomId), k)
                                 && CaptureCandidates(names, roomId)[k].1 == r.value
  {
    var candidates := CollectCaptures(names, roomId);
    NoCaptureCandidates(names, roomId);
    if candidates == [] {
      return None;
    }
    var best := FirstMaxIndex(candidates);
    r := Some(candidates[best].1);
    PickedIsCandidate(names, roomId, CaptureResults(names, roomId), best);
  }

  /** The loop of `pick_latest_changeset` that gathers the candidates. */
  method CollectCaptures(names: seq<string>, roomId: Option<string>) returns (candidates: seq<(string, string)>)
    ensures candidates == CaptureCandidates(names, roomId)
  {
    var results := CaptureResults(names, roomId);
    candidates := [];
    var i := 0;
    while i < |names|
      invariant 0 <= i <= |names|
      invariant candidates == Somes(results[..i])
    {
      SomesSnoc(results, i);
      var candidate := results[i];
      if candidate.Some? {
        candidates := candidates + [candidate.value];
      }
      i := i + 1;
    }
    assert results[..i] == results;
  }

  lemma NoCaptureCandidates(names: seq<string>, roomId: Option<string>)
    ensures CaptureCandidates(names, roomId) == [] <==> forall i :: 0 <= i < |names| ==> CaptureCandidate(names[i], roomId).None?
  {
    var results := CaptureResults(names, roomId);
    assert forall i :: 0 <= i < |names| ==> results[i] == CaptureCandidate(names[i], roomId);
  }

  lemma PickedIsCandidate(names: seq<string>, roomId: Option<string>, results: seq<Option<(string, string)>>, k: nat)
    requires results == CaptureResults(names, roomId) && k < |Somes(results)|
    ensures CaptureCandidate(Somes(results)[k].1, roomId).Some?
  {
    var i :| 0 <= i < |results| && results[i] == Some(Somes(results)[k]);
    assert CaptureCandidate(names[i], roomId) == Some(Somes(results)[k]);
  }

  /** The index `max(..., key=...)` settles on: a later entry replaces the
      current one only when its timestamp is strictly greater. */
  method FirstMaxIndex(c: seq<(string, string)>) returns (best: nat)
    requires c != []
    ensures IsFirstMax(c, best)
  {
    best := 0;
    var k := 1;
    while k < |c|
      invariant 1 <= k <= |c| && 0 <= best < k
      invariant forall j :: 0 <= j < k ==>
                  (j < best ==> StrLt(c[j].0, c[best].0)) && (best < j ==> !StrLt(c[best].0, c[j].0))
    {
      if StrLt(c[best].0, c[k].0) {
        forall j | 0 <= j < k ensures StrLt(c[j].0, c[k].0) {
          if j < best {
            StrLtTransitive(c[j].0, c[best].0, c[k].0);
          } else if best < j {
            StrLtNotGreater(c[j].0, c[best].0, c[k].0);
          }
        }
        best := k;
      }
      k := k + 1;
    }
  }

  // ------------------------------------------------------------ MIME type

  /** `PurePath.suffix`: from the last dot, unless that dot starts the name
      or ends it. */
  function Suffix(name: string): (r: string)
    ensures r == [] || (|r| >= 2 && r[0] == '.' && '.' !in r[1..] && |r| < |name| && EndsWith(name, r))
    ensures r == [] <==> forall i :: 0 < i < |name| - 1 ==> name[i] != '.' || '.' in name[i + 1..]
  {
    match LastIndexOf(name, '.')
    case None => []
    case Some(i) => if 0 < i < |name| - 1 then name[i..] else []
  }

  /** The MIME choice of `encode_image`; an unsupported suffix is an error. */
  function MimeType(name: string): (r: Result<string, string>)
    ensures r == Ok("image/jpeg") <==> Lower(Suffix(name)) == ".jpg" || Lower(Suffix(name)) == ".jpeg"
    ensures r == Ok("image/png") <==> Lower(Suffix(name)) == ".png"
    ensures r.Ok? ==> r.value == "image/jpeg" || r.value == "image/png"
  {
    var suffix := Lower(Suffix(name));
    if suffix == ".jpg" || suffix == ".jpeg" then Ok("image/jpeg")
    else if suffix == ".png" then Ok("image/png")
    else Err("Unsupported image format: " + name)
  }

  /** Suffix of a rendered name: its extension, plus the line feed if any. */
  lemma RenderedSuffix(p: NameParts)
    requires WellFormed(p, CaptureTags)
    ensures Suffix(Render(p)) == p.ext + (if p.newline then ['\n'] else [])
  {
    ExtensionShape(p.ext);
    SuffixOfRender(p);
  }

  lemma SuffixOfRender(p: NameParts)
    requires |p.ext| >= 2 && p.ext[0] == '.' && '.' !in p.ext[1..]
    ensures Suffix(Render(p)) == p.ext + (if p.newline then ['\n'] else [])
  {
    var f := p.fields;
    var before := p.tag + ['-'] + (f.roomId + ['-'] + (f.cameraName + ['-'] + f.timestamp));
    var after := p.ext[1..] + (if p.newline then ['\n'] else []);
    RenderAroundDot(p, before, after);
    ExtensionTail(p.ext, p.newline);
    SuffixAt(before, after);
  }

  lemma ExtensionTail(ext: string, newline: bool)
    requires |ext| >= 2 && ext[0] == '.' && '.' !in ext[1..]
    ensures var after := ext[1..] + (if newline then ['\n'] else []);
      |after| > 0 && '.' !in after && ext + (if newline then ['\n'] else []) == ['.'] + after
  {
    assert ext == ['.'] + ext[1..];
  }

  lemma RenderAroundDot(p: NameParts, before: string, after: string)
    requires |p.ext| > 0 && p.ext[0] == '.'
    requires before == p.tag + ['-'] + (p.fields.roomId + ['-'] + (p.fields.cameraName + ['-'] + p.fields.timestamp))
    requires after == p.ext[1..] + (if p.newline then ['\n'] else [])
    ensures Render(p) == before + ['.'] + after
  {
    assert p.ext == ['.'] + p.ext[1..];
  }

  lemma SuffixAt(before: string, after: string)
    requires '.' !in after && |before| > 0 && |after| > 0
    ensures Suffix(before + ['.'] + after) == ['.'] + after
  {
    LastIndexOfAt(before, '.', after);
    var name := before + ['.'] + after;
    assert name[|before|..] == ['.'] + after;
  }

  /** A file `<stem><ext>` with a one-dot extension is typed by its
      extension alone, in any letter case, whatever dots the stem holds. */
  lemma MimeOfExtension(stem: string, ext: string)
    requires stem != [] && |ext| >= 2 && ext[0] == '.' && '.' !in ext[1..]
    ensures Suffix(stem + ext) == ext
    ensures MimeType(stem + ext) == Ok("image/jpeg") <==> Lower(ext) == ".jpg" || Lower(ext) == ".jpeg"
    ensures MimeType(stem + ext) == Ok("image/png") <==> Lower(ext) == ".png"
    ensures MimeType(stem + ext).Err? <==> Lower(ext) != ".jpg" && Lower(ext) != ".jpeg" && Lower(ext) != ".png"
  {
    var after := ext[1..];
    assert ext == ['.'] + after;
    assert stem + ext == stem + ['.'] + after;
    SuffixAt(stem, after);
  }

  /** Every name the patterns accept without a trailing line feed is sent as
      JPEG. */
  lemma ParsedNameIsJpeg(name: string, tags: set<string>)
    requires tags <= CaptureTags && ScanName(name, tags).Some? && !ScanName(name, tags).value.newline
    ensures MimeType(name) == Ok("image/jpeg")
  {
    var p := ScanName(name, tags).value;
    RenderedSuffix(p);
    assert Suffix(name) == p.ext;
  }

  /** A name the patterns accept only through `$` before a final line feed
      has the line feed in its suffix, so `encode_image` rejects it. */
  lemma NewlineNameIsRejected(name: string, tags: set<string>)
    requires tags <= CaptureTags && ScanName(name, tags).Some? && ScanName(name, tags).value.newline
    ensures MimeType(name).Err?
  {
    var p := ScanName(name, tags).value;
    RenderedSuffix(p);
    var suffix := Lower(Suffix(name));
    assert suffix[|suffix| - 1] == '\n';
  }

  // ------------------------------------------------------------ prompt lines

  /** `baseline.location or "unknown"` */
  function LocationText(location: Option<string>): (r: string)
    ensures r != []
    ensures location.Some? && location.value != [] ==> r == location.value
    ensures location.None? || location.value == [] ==> r == "unknown"
  {
    if location.Some? && location.value != [] then location.value else "unknown"
  }

  function BaselineLine(index: nat, b: Baseline): string {
    NatToString(index) + ". room_id=" + b.roomId + ", camera=" + b.cameraName + ", location="
      + LocationText(b.location) + ", timestamp=" + b.timestamp + ", file=" + b.file
  }

  /** The numbered metadata lines of `build_prompt`, one per baseline, in order. */
  function BaselineLines(bs: seq<Baseline>): (lines: seq<string>)
    ensures |lines| == |bs|
    ensures forall i :: 0 <= i < |bs| ==> lines[i] == BaselineLine(i + 1, bs[i])
  {
    seq(|bs|, i requires 0 <= i < |bs| => BaselineLine(i + 1, bs[i]))
  }

  /** Line `i` starts with the decimal number `i + 1` followed by a dot. */
  lemma LineNumbering(bs: seq<Baseline>, i: nat)
    requires i < |bs|
    ensures var line := BaselineLines(bs)[i];
            var n := LeadingDigits(line);
            n < |line| && line[n] == '.' && DigitsValue(line[..n]) == i + 1
  {
    var line := BaselineLines(bs)[i];
    var digits := NatToString(i + 1);
    var rest := line[|digits|..];
    assert line == digits + rest;
    assert rest[0] == '.';
    LeadingDigitsOf(digits, rest);
    assert line[..|digits|] == digits;
    NatToStringRoundTrip(i + 1);
  }
}
