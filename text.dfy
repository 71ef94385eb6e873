/** The handful of Python `str` operations the core relies on, with Python's
    meaning: `isspace`, `strip()`, `split()` with and without a separator,
    `startswith`, `endswith`, `in`, `replace` of one character, and `str(n)`
    for a natural number. `lower()`/`upper()` are modelled on ASCII letters. */
module Text {
  import opened Wrappers

  /** Python's `str.isspace` set, used by `strip()` and `split()`. */
  predicate IsSpace(c: char) {
    || c == ' ' || ('\t' <= c <= '\r') || ('\U{1C}' <= c <= '\U{1F}')
    || c == '\U{85}' || c == '\U{A0}' || c == '\U{1680}' || ('\U{2000}' <= c <= '\U{200A}')
    || c == '\U{2028}' || c == '\U{2029}' || c == '\U{202F}' || c == '\U{205F}' || c == '\U{3000}'
  }

  predicate IsDigit(c: char) { '0' <= c <= '9' }

  predicate AllDigits(s: string) { forall i :: 0 <= i < |s| ==> IsDigit(s[i]) }

  function LowerChar(c: char): char {
    if 'A' <= c <= 'Z' then (c as int + 32) as char else c
  }

  function UpperChar(c: char): char {
    if 'a' <= c <= 'z' then (c as int - 32) as char else c
  }

  function Lower(s: string): (r: string)
    ensures |r| == |s| && forall i :: 0 <= i < |s| ==> r[i] == LowerChar(s[i])
  {
    seq(|s|, i requires 0 <= i < |s| => LowerChar(s[i]))
  }

  function Upper(s: string): (r: string)
    ensures |r| == |s| && forall i :: 0 <= i < |s| ==> r[i] == UpperChar(s[i])
  {
    seq(|s|, i requires 0 <= i < |s| => UpperChar(s[i]))
  }

  predicate StartsWith(s: string, prefix: string) {
    |prefix| <= |s| && s[..|prefix|] == prefix
  }

  predicate EndsWith(s: string, suffix: string) {
    |suffix| <= |s| && s[|s| - |suffix|..] == suffix
  }

  /** `sub in s` */
  predicate Contains(s: string, sub: string)
    decreases |s|
  {
    StartsWith(s, sub) || (s != [] && Contains(s[1..], sub))
  }

  lemma {:induction false} ContainsAt(s: string, sub: string, i: nat)
    requires i + |sub| <= |s| && s[i..i + |sub|] == sub
    ensures Contains(s, sub)
  {
    if i > 0 {
      assert s[1..][i - 1..i - 1 + |sub|] == sub;
      ContainsAt(s[1..], sub, i - 1);
    }
  }

  lemma {:induction false} ContainsAppend(a: string, b: string, sub: string)
    requires Contains(b, sub)
    ensures Contains(a + b, sub)
  {
    if a == [] {
      assert a + b == b;
    } else {
      assert (a + b)[1..] == a[1..] + b;
      ContainsAppend(a[1..], b, sub);
    }
  }

  /** A string that does not contain character `c` does not contain any text holding `c`. */
  lemma {:induction false} NotContainsChar(s: string, sub: string, k: nat, c: char)
    requires k < |sub| && sub[k] == c && c !in s
    ensures !Contains(s, sub)
  {
    if s != [] {
      assert |sub| <= |s| ==> s[..|sub|][k] == s[k];
      NotContainsChar(s[1..], sub, k, c);
    }
  }

  lemma {:induction false} ContainsWitness(s: string, sub: string) returns (i: nat)
    requires Contains(s, sub)
    ensures OccursAt(s, sub, i)
    decreases |s|
  {
    if StartsWith(s, sub) {
      i := 0;
    } else {
      var k := ContainsWitness(s[1..], sub);
      assert s[k + 1..k + 1 + |sub|] == s[1..][k..k + |sub|];
      i := k + 1;
    }
  }

  /** Text found in a slice is found in the whole string. */
  lemma ContainsInfix(s: string, i: nat, j: nat, sub: string)
    requires i <= j <= |s| && Contains(s[i..j], sub)
    ensures Contains(s, sub)
  {
    var k := ContainsWitness(s[i..j], sub);
    assert OccursAt(s[i..j], sub, k);
    assert k + |sub| <= j - i;
    forall t | 0 <= t < |sub| ensures s[i + k..i + k + |sub|][t] == sub[t] {
      assert sub[t] == s[i..j][k..k + |sub|][t] == s[i..j][k + t];
    }
    assert s[i + k..i + k + |sub|] == sub;
    ContainsAt(s, sub, i + k);
  }

  function TrimLeft(s: string): (r: string)
    ensures |r| <= |s| && r == s[|s| - |r|..]
    ensures r == [] || !IsSpace(r[0])
    ensures forall i :: 0 <= i < |s| - |r| ==> IsSpace(s[i])
  {
    if s != [] && IsSpace(s[0]) then TrimLeft(s[1..]) else s
  }

  function TrimRight(s: string): (r: string)
    ensures |r| <= |s| && r == s[..|r|]
    ensures r == [] || !IsSpace(r[|r| - 1])
    ensures forall i :: |r| <= i < |s| ==> IsSpace(s[i])
  {
    if s != [] && IsSpace(s[|s| - 1]) then TrimRight(s[..|s| - 1]) else s
  }

  /** `s.strip()` */
  function Strip(s: string): (r: string)
    ensures r == [] || (!IsSpace(r[0]) && !IsSpace(r[|r| - 1]))
    ensures r == [] <==> forall i :: 0 <= i < |s| ==> IsSpace(s[i])
    ensures |r| <= |s|
  {
    TrimRight(TrimLeft(s))
  }

  lemma StripInfix(s: string) returns (i: nat, j: nat)
    ensures i <= j <= |s| && Strip(s) == s[i..j]
  {
    var l := TrimLeft(s);
    i := |s| - |l|;
    j := i + |TrimRight(l)|;
    assert l[..|TrimRight(l)|] == s[i..j];
  }

  lemma StripUnpadded(s: string)
    requires s != [] && !IsSpace(s[0]) && !IsSpace(s[|s| - 1])
    ensures Strip(s) == s
  {
  }

  /** Length of the leading run of non-space characters. */
  function WordLength(s: string): (n: nat)
    ensures n <= |s|
    ensures forall i :: 0 <= i < n ==> !IsSpace(s[i])
    ensures n == |s| || IsSpace(s[n])
  {
    if s == [] || IsSpace(s[0]) then 0 else 1 + WordLength(s[1..])
  }

  /** `s.split()`: the maximal runs of non-space characters, in order. */
  function Words(s: string): (r: seq<string>)
    ensures forall k :: 0 <= k < |r| ==> r[k] != [] && forall i :: 0 <= i < |r[k]| ==> !IsSpace(r[k][i])
    ensures s != [] && !IsSpace(s[0]) ==> r != []
    decreases |s|
  {
    if s == [] then []
    else if IsSpace(s[0]) then Words(s[1..])
    else
      var n := WordLength(s);
      [s[..n]] + Words(s[n..])
  }

  predicate NoSpace(w: string) {
    forall i :: 0 <= i < |w| ==> !IsSpace(w[i])
  }

  lemma {:induction false} WordLengthOf(w: string, rest: string)
    requires NoSpace(w) && (rest == [] || IsSpace(rest[0]))
    ensures WordLength(w + rest) == |w|
  {
    if w != [] {
      assert (w + rest)[1..] == w[1..] + rest;
      WordLengthOf(w[1..], rest);
    } else {
      assert w + rest == rest;
    }
  }

  /** The first word of a text that starts with a word and a space. */
  lemma WordsFirst(w: string, rest: string)
    requires w != [] && NoSpace(w)
    ensures Words(w + [' '] + rest) != [] && Words(w + [' '] + rest)[0] == w
  {
    var s := w + ([' '] + rest);
    assert s == w + [' '] + rest;
    WordLengthOf(w, [' '] + rest);
    assert s[..|w|] == w;
  }

  /** Appending a space and a word appends that word to `split()`. */
  lemma {:induction false} WordsSnoc(a: string, w: string)
    requires w != [] && NoSpace(w)
    ensures Words(a + [' '] + w) == Words(a) + [w]
    decreases |a|, 1
  {
    var s := a + [' '] + w;
    if a == [] {
      assert s == [' '] + w;
      WordsSpaceWord(w);
    } else if IsSpace(a[0]) {
      assert s[1..] == a[1..] + [' '] + w;
      WordsSnoc(a[1..], w);
    } else {
      WordsSnocAfterWord(a, w);
    }
  }

  lemma WordsSpaceWord(w: string)
    requires w != [] && NoSpace(w)
    ensures Words([' '] + w) == [w]
  {
    var s := [' '] + w;
    assert s[0] == ' ' && s[1..] == w;
    assert Words(s) == Words(w);
    WordLengthOf(w, []);
    assert w + [] == w;
    assert WordLength(w) == |w|;
    assert w[..|w|] == w && w[|w|..] == [];
    assert Words(w) == [w] + Words([]);
  }

  lemma {:induction false} WordsSnocAfterWord(a: string, w: string)
    requires w != [] && NoSpace(w) && a != [] && !IsSpace(a[0])
    ensures Words(a + [' '] + w) == Words(a) + [w]
    decreases |a|, 0
  {
    var s := a + [' '] + w;
    var n := WordLength(a);
    var h, t := a[..n], a[n..];
    var t' := t + [' '] + w;
    assert NoSpace(h);
    assert s == h + t';
    WordLengthOf(h, t');
    assert s[..n] == h && s[n..] == t';
    assert Words(s) == [h] + Words(t');
    assert Words(a) == [h] + Words(t);
    WordsSnoc(t, w);
  }

  /** `sub` occurs in `s` starting at index `i`. */
  predicate OccursAt(s: string, sub: string, i: nat) {
    i + |sub| <= |s| && s[i..i + |sub|] == sub
  }

  lemma OccursAtTail(s: string, sub: string, i: nat)
    requires s != []
    ensures OccursAt(s, sub, i + 1) <==> OccursAt(s[1..], sub, i)
  {
    if i + 1 + |sub| <= |s| {
      assert s[i + 1..i + 1 + |sub|] == s[1..][i..i + |sub|];
    }
  }

  /** Index of the first occurrence of `sep` in `s` (`str.find`). */
  function FindFirst(s: string, sep: string): (r: Option<nat>)
    requires sep != []
    ensures r.Some? ==> OccursAt(s, sep, r.value)
    ensures r.Some? ==> forall i :: 0 <= i < r.value ==> !OccursAt(s, sep, i)
    ensures r.None? ==> forall i :: 0 <= i ==> !OccursAt(s, sep, i)
    decreases |s|
  {
    if StartsWith(s, sep) then Some(0)
    else if |s| < |sep| then None
    else
      match FindFirst(s[1..], sep)
      case None =>
        assert forall i :: 1 <= i ==> !OccursAt(s, sep, i) by {
          forall i | 1 <= i ensures !OccursAt(s, sep, i) { OccursAtTail(s, sep, i - 1); }
        }
        None
      case Some(i) =>
        assert forall k :: 1 <= k <= i ==> !OccursAt(s, sep, k) by {
          forall k | 1 <= k <= i ensures !OccursAt(s, sep, k) { OccursAtTail(s, sep, k - 1); }
        }
        OccursAtTail(s, sep, i);
        Some(i + 1)
  }

  /** `s.split(sep)` for a non-empty separator. */
  function Split(s: string, sep: string): (r: seq<string>)
    requires sep != []
    ensures |r| >= 1
    decreases |s|
  {
    match FindFirst(s, sep)
    case None => [s]
    case Some(i) => [s[..i]] + Split(s[i + |sep|..], sep)
  }

  /** `c.join(parts)` for a one-character separator. */
  function Join(parts: seq<string>, c: char): (r: string)
    requires parts != []
    ensures |r| >= |parts[0]| && r[..|parts[0]|] == parts[0]
  {
    if |parts| == 1 then parts[0] else parts[0] + [c] + Join(parts[1..], c)
  }

  lemma SplitNoSeparator(a: string, c: char)
    requires c !in a
    ensures Split(a, [c]) == [a]
  {
    forall i: nat ensures !OccursAt(a, [c], i) {
      if i < |a| { assert a[i..i + 1] == [a[i]]; }
    }
  }

  lemma SplitAtFirst(a: string, c: char, b: string)
    requires c !in a
    ensures Split(a + [c] + b, [c]) == [a] + Split(b, [c])
  {
    var s := a + [c] + b;
    forall i: nat | i < |a| ensures !OccursAt(s, [c], i) {
      assert s[i..i + 1] == [a[i]];
    }
    assert s[|a|..|a| + 1] == [c];
    assert OccursAt(s, [c], |a|);
    var r := FindFirst(s, [c]);
    assert r.Some?;
    assert r.value >= |a|;
    assert r.value == |a|;
    assert s[..|a|] == a && s[|a| + 1..] == b;
  }

  /** Splitting a join on its separator gives the parts back when none holds it. */
  lemma {:induction false} SplitJoin(parts: seq<string>, c: char)
    requires parts != []
    requires forall k :: 0 <= k < |parts| ==> c !in parts[k]
    ensures Split(Join(parts, c), [c]) == parts
  {
    if |parts| == 1 {
      SplitNoSeparator(parts[0], c);
    } else {
      SplitAtFirst(parts[0], c, Join(parts[1..], c));
      SplitJoin(parts[1..], c);
    }
  }

  /** Index of the first occurrence of a character. */
  function FindChar(s: string, c: char): (r: Option<nat>)
    ensures r.Some? <==> c in s
    ensures r.Some? ==> r.value < |s| && s[r.value] == c && c !in s[..r.value]
  {
    if s == [] then None
    else if s[0] == c then Some(0)
    else match FindChar(s[1..], c)
      case None => None
      case Some(i) => assert s[..i + 1] == [s[0]] + s[1..][..i]; Some(i + 1)
  }

  /** Index of the last occurrence of a character (`str.rfind`). */
  function LastIndexOf(s: string, c: char): (r: Option<nat>)
    ensures r.Some? <==> c in s
    ensures r.Some? ==> r.value < |s| && s[r.value] == c && c !in s[r.value + 1..]
  {
    if s == [] then None
    else if s[|s| - 1] == c then Some(|s| - 1)
    else
      var r := LastIndexOf(s[..|s| - 1], c);
      assert r.Some? ==> s[r.value + 1..] == s[..|s| - 1][r.value + 1..] + [s[|s| - 1]];
      r
  }

  lemma FindCharAt(a: string, c: char, b: string)
    requires c !in a
    ensures FindChar(a + [c] + b, c) == Some(|a|)
  {
    var s := a + [c] + b;
    assert forall j :: 0 <= j < |a| ==> s[j] != c;
    assert forall j :: |a| < j <= |s| ==> s[..j][|a|] == c;
  }

  lemma LastIndexOfAt(a: string, c: char, b: string)
    requires c !in b
    ensures LastIndexOf(a + [c] + b, c) == Some(|a|)
  {
    var s := a + [c] + b;
    var i := LastIndexOf(s, c).value;
    assert forall j :: |a| < j < |s| ==> s[j] != c;
    if i < |a| {
      InSuffix(s, i, |a|);
      assert false;
    }
  }

  lemma InSuffix(s: string, j: int, k: int)
    requires 0 <= j < k < |s|
    ensures s[k] in s[j + 1..]
  {
    assert s[j + 1..][k - j - 1] == s[k];
  }

  /** `s.replace(old, new)` for single characters. */
  function ReplaceChar(s: string, from: char, to: char): (r: string)
    ensures |r| == |s|
    ensures forall i :: 0 <= i < |s| ==> r[i] == if s[i] == from then to else s[i]
  {
    seq(|s|, i requires 0 <= i < |s| => if s[i] == from then to else s[i])
  }

  /** `s.replace(c, "")` */
  function RemoveChar(s: string, c: char): (r: string)
    ensures c !in r
    ensures |r| <= |s|
    ensures c !in s ==> r == s
    ensures forall x :: x != c ==> multiset(r)[x] == multiset(s)[x]
  {
    if s == [] then []
    else
      assert s == [s[0]] + s[1..];
      if s[0] == c then RemoveChar(s[1..], c)
      else [s[0]] + RemoveChar(s[1..], c)
  }

  /** Removal works piece by piece, so the kept characters stay in order. */
  lemma {:induction false} RemoveCharAppend(a: string, b: string, c: char)
    ensures RemoveChar(a + b, c) == RemoveChar(a, c) + RemoveChar(b, c)
  {
    if a != [] {
      assert (a + b)[0] == a[0] && (a + b)[1..] == a[1..] + b;
      RemoveCharAppend(a[1..], b, c);
    } else {
      assert a + b == b;
    }
  }

  /** `s.strip(chars)` */
  function StripChars(s: string, chars: set<char>): (r: string)
    ensures r == [] || (r[0] !in chars && r[|r| - 1] !in chars)
    ensures |r| <= |s|
    decreases |s|
  {
    if s != [] && s[0] in chars then StripChars(s[1..], chars)
    else if s != [] && s[|s| - 1] in chars then StripChars(s[..|s| - 1], chars)
    else s
  }

  function DigitChar(d: nat): (c: char)
    requires d < 10
    ensures IsDigit(c)
  {
    ('0' as int + d) as char
  }

  function DigitValue(c: char): nat
    requires IsDigit(c)
  {
    c as int - '0' as int
  }

  /** `str(n)` for a natural number. */
  function NatToString(n: nat): (s: string)
    ensures s != [] && AllDigits(s)
    ensures |s| > 1 ==> s[0] != '0'
  {
    if n < 10 then [DigitChar(n)] else NatToString(n / 10) + [DigitChar(n % 10)]
  }

  /** `int(s)` for a string of decimal digits. */
  function DigitsValue(s: string): nat
    requires AllDigits(s)
  {
    if s == [] then 0 else 10 * DigitsValue(s[..|s| - 1]) + DigitValue(s[|s| - 1])
  }

  /** `int(str(n)) == n` */
  lemma {:induction false} NatToStringRoundTrip(n: nat)
    ensures DigitsValue(NatToString(n)) == n
  {
    if n >= 10 {
      var s := NatToString(n);
      assert s[..|s| - 1] == NatToString(n / 10);
      NatToStringRoundTrip(n / 10);
    }
  }

  /** Length of the leading run of decimal digits. */
  function LeadingDigits(s: string): (n: nat)
    ensures n <= |s| && AllDigits(s[..n])
    ensures n == |s| || !IsDigit(s[n])
  {
    if s == [] || !IsDigit(s[0]) then 0
    else
      var k := LeadingDigits(s[1..]);
      assert s[..k + 1] == [s[0]] + s[1..][..k];
      k + 1
  }

  lemma LeadingDigitsOf(digits: string, rest: string)
    requires AllDigits(digits)
    requires rest == [] || !IsDigit(rest[0])
    ensures LeadingDigits(digits + rest) == |digits|
  {
    if digits != [] {
      assert (digits + rest)[1..] == digits[1..] + rest;
      LeadingDigitsOf(digits[1..], rest);
    }
  }
}
