/** The text primitives the parsers rely on, with the semantics of the Python
    builtins they stand for (`str.split`, `str.strip`, `in`, `int()`, `str()`),
    of the one regular expression `key([^\s]+)`, and of the `grep -E` and `awk`
    stages of the shell pipelines that feed the parsers. */
module Text {
  import opened Wrappers

  /** Python's `str.isspace()`: the characters that `split()`, `strip()` and the
      regular-expression class `\s` treat as whitespace. */
  predicate IsSpace(c: char) {
    c == ' ' || ('\t' <= c <= '\r') || ('\U{001C}' <= c <= '\U{001F}')
    || c == '\U{0085}' || c == '\U{00A0}' || c == '\U{1680}'
    || ('\U{2000}' <= c <= '\U{200A}') || c == '\U{2028}' || c == '\U{2029}'
    || c == '\U{202F}' || c == '\U{205F}' || c == '\U{3000}'
  }

  predicate IsDigit(c: char) { '0' <= c <= '9' }

  predicate AllDigits(s: string) { forall i :: 0 <= i < |s| ==> IsDigit(s[i]) }

  /** `s.startswith(p)`. */
  predicate StartsWith(s: string, p: string) { |p| <= |s| && s[..|p|] == p }

  /** An occurrence of `sub` in `s` at position i. */
  predicate OccursAt(s: string, sub: string, i: int) {
    0 <= i && i + |sub| <= |s| && s[i..i + |sub|] == sub
  }

  /** `sub in s`. */
  predicate Contains(s: string, sub: string) {
    exists i :: 0 <= i <= |s| - |sub| && OccursAt(s, sub, i)
  }

  lemma ContainsAt(s: string, sub: string, i: int)
    requires OccursAt(s, sub, i)
    ensures Contains(s, sub)
  {
  }

  /** The first position of c in s. */
  function IndexOf(s: string, c: char): (i: nat)
    requires c in s
    ensures i < |s| && s[i] == c && c !in s[..i]
  {
    if s[0] == c then 0 else 1 + IndexOf(s[1..], c)
  }

  /** The first position of c is the one with no c before it. */
  lemma {:induction false} IndexOfAt(s: string, c: char, i: nat)
    requires i < |s| && s[i] == c && c !in s[..i]
    ensures IndexOf(s, c) == i
  {
    if i > 0 {
      assert s[0] == s[..i][0];
      assert s[1..][..i - 1] == s[..i][1..];
      IndexOfAt(s[1..], c, i - 1);
    }
  }

  /** `f"{a}:{b}"`, the form of the fingerprint input and of the dict keys. */
  function JoinColon(a: string, b: string): string {
    a + ":" + b
  }

  /** When the first part has no ':' (an IPv4 address), the joined text
      determines both parts. */
  lemma JoinColonInjective(a1: string, b1: string, a2: string, b2: string)
    requires ':' !in a1 && ':' !in a2
    ensures JoinColon(a1, b1) == JoinColon(a2, b2) <==> a1 == a2 && b1 == b2
  {
    var s1 := JoinColon(a1, b1);
    var s2 := JoinColon(a2, b2);
    ColonAt(a1, b1);
    ColonAt(a2, b2);
    if s1 == s2 {
      assert a1 == s1[..|a1|];
      assert a2 == s2[..|a2|];
      assert b1 == s1[|a1| + 1..];
      assert b2 == s2[|a2| + 1..];
    }
  }

  lemma ColonAt(a: string, b: string)
    requires ':' !in a
    ensures IndexOf(JoinColon(a, b), ':') == |a|
    ensures JoinColon(a, b)[..|a|] == a
    ensures JoinColon(a, b)[|a| + 1..] == b
  {
    var s := JoinColon(a, b);
    assert s[..|a|] == a;
    IndexOfAt(s, ':', |a|);
  }

  /** The text before the first c, or all of s. */
  function TakeUntil(s: string, c: char): (r: string)
    ensures StartsWith(s, r) && c !in r
    ensures |r| < |s| ==> s[|r|] == c
  {
    if c in s then s[..IndexOf(s, c)] else s
  }

  /** Length of the run of characters at the start of s that satisfy `keep`. */
  function RunLength(s: string, keep: char -> bool): (n: nat)
    ensures n <= |s|
    ensures forall i :: 0 <= i < n ==> keep(s[i])
    ensures n < |s| ==> !keep(s[n])
  {
    if s == [] || !keep(s[0]) then 0 else 1 + RunLength(s[1..], keep)
  }

  /** Splits `s` at runs of separator characters, dropping empty pieces: Python's
      `s.split()` when `sep` is IsSpace, and awk's default field splitting when it
      is IsBlank. */
  function SplitRuns(s: string, sep: char -> bool): (r: seq<string>)
    ensures forall i :: 0 <= i < |r| ==> r[i] != [] && forall j :: 0 <= j < |r[i]| ==> !sep(r[i][j])
    decreases |s|
  {
    if s == [] then []
    else if sep(s[0]) then SplitRuns(s[1..], sep)
    else
      var n := RunLength(s, c => !sep(c));
      [s[..n]] + SplitRuns(s[n..], sep)
  }

  /** `s.split()`. */
  function Words(s: string): seq<string> { SplitRuns(s, IsSpace) }

  /** `s.split('\n')`: always at least one piece, none containing a newline. */
  function Lines(s: string): (r: seq<string>)
    ensures |r| >= 1
    ensures forall i :: 0 <= i < |r| ==> '\n' !in r[i]
    decreases |s|
  {
    if '\n' !in s then [s]
    else
      var i := IndexOf(s, '\n');
      [s[..i]] + Lines(s[i + 1..])
  }

  /** Drops the characters satisfying `drop` from both ends of s. */
  function StripBy(s: string, drop: char -> bool): (r: string)
    ensures |r| <= |s|
    ensures r != [] ==> !drop(r[0]) && !drop(r[|r| - 1])
    decreases |s|
  {
    if s == [] then []
    else if drop(s[0]) then StripBy(s[1..], drop)
    else if drop(s[|s| - 1]) then StripBy(s[..|s| - 1], drop)
    else s
  }

  /** `s.strip()`. */
  function Strip(s: string): string { StripBy(s, IsSpace) }

  /** `s.split('=')[1]`: the text between the first and the second '='. */
  function SplitField1(s: string): (r: string)
    requires '=' in s
    ensures '=' !in r
  {
    TakeUntil(s[IndexOf(s, '=') + 1..], '=')
  }

  /** A conntrack key such as `src=`: a name followed by its single '='. */
  predicate KeyShaped(key: string) {
    |key| > 0 && key[|key| - 1] == '=' && '=' !in key[..|key| - 1]
  }

  /** For a token that starts with a key, `split('=')[1]` is the text after the
      key up to the next '='. */
  lemma KeyedField(part: string, key: string)
    requires KeyShaped(key) && StartsWith(part, key)
    ensures '=' in part
    ensures SplitField1(part) == TakeUntil(part[|key|..], '=')
  {
    var k := |key| - 1;
    assert part[k] == key[k];
    assert part[..k] == key[..k];
    assert IndexOf(part, '=') == k;
    assert part[k + 1..] == part[|key|..];
  }

  /** The value that the loop
        `for part in parts: if part.startswith(key): v = part.split('=')[1]`
      leaves in v (starting from None): the last token with that key wins. */
  function LastValue(parts: seq<string>, key: string): (r: Option<string>)
    requires KeyShaped(key)
    decreases |parts|
  {
    if parts == [] then None
    else
      var p := parts[|parts| - 1];
      if StartsWith(p, key) then (KeyedField(p, key); Some(SplitField1(p)))
      else LastValue(parts[..|parts| - 1], key)
  }

  /** LastValue finds a value exactly when some token carries the key, and the
      value is that of the last such token. */
  lemma LastValueSpec(parts: seq<string>, key: string)
    requires KeyShaped(key)
    ensures LastValue(parts, key).Some? <==> exists i :: 0 <= i < |parts| && StartsWith(parts[i], key)
    ensures LastValue(parts, key).Some? ==> DecidedBy(parts, key, LastValue(parts, key).value)
  {
    LastValueFound(parts, key);
    LastValueDecided(parts, key);
  }

  lemma {:induction false} LastValueFound(parts: seq<string>, key: string)
    requires KeyShaped(key)
    ensures LastValue(parts, key).Some? <==> exists i :: 0 <= i < |parts| && StartsWith(parts[i], key)
    decreases |parts|
  {
    if parts != [] {
      var n := |parts| - 1;
      var init := parts[..n];
      LastValueFound(init, key);
      if !StartsWith(parts[n], key) && exists i :: 0 <= i < |parts| && StartsWith(parts[i], key) {
        var i :| 0 <= i < |parts| && StartsWith(parts[i], key);
        assert init[i] == parts[i];
      }
    }
  }

  lemma {:induction false} LastValueDecided(parts: seq<string>, key: string)
    requires KeyShaped(key)
    ensures LastValue(parts, key).Some? ==> DecidedBy(parts, key, LastValue(parts, key).value)
    decreases |parts|
  {
    if parts != [] {
      var n := |parts| - 1;
      var init := parts[..n];
      if StartsWith(parts[n], key) {
        KeyedField(parts[n], key);
        assert LastKeyed(parts, key, n);
      } else {
        LastValueDecided(init, key);
        if LastValue(init, key).Some? {
          var i :| 0 <= i < |init| && LastKeyed(init, key, i) && LastValue(init, key).value == TakeUntil(init[i][|key|..], '=');
          LastKeyedExtend(parts, key, i);
        }
      }
    }
  }

  /** A last keyed token of all but the final token stays last when the final
      token does not carry the key. */
  lemma LastKeyedExtend(parts: seq<string>, key: string, i: nat)
    requires i < |parts| - 1 && LastKeyed(parts[..|parts| - 1], key, i)
    requires !StartsWith(parts[|parts| - 1], key)
    ensures LastKeyed(parts, key, i) && parts[i] == parts[..|parts| - 1][i]
  {
    var init := parts[..|parts| - 1];
    forall j | i < j < |parts| ensures !StartsWith(parts[j], key) {
      if j < |parts| - 1 { assert parts[j] == init[j]; }
    }
  }

  /** A line `not line.strip()` skips. */
  predicate BlankLine(line: string) { Strip(line) == [] }

  /** v is the value (up to the next `=`) of the last token of parts that
      starts with key. */
  ghost predicate DecidedBy(parts: seq<string>, key: string, v: string) {
    exists i :: 0 <= i < |parts| && LastKeyed(parts, key, i) && v == TakeUntil(parts[i][|key|..], '=')
  }

  ghost predicate LastKeyed(parts: seq<string>, key: string, i: int)
    requires 0 <= i < |parts|
  {
    StartsWith(parts[i], key) && forall j :: i < j < |parts| ==> !StartsWith(parts[j], key)
  }

  /** A token starts with at most one of the four keys. */
  lemma KeysExclusive(part: string)
    ensures StartsWith(part, "src=") ==> !StartsWith(part, "dst=") && !StartsWith(part, "sport=") && !StartsWith(part, "dport=")
    ensures StartsWith(part, "dst=") ==> !StartsWith(part, "sport=") && !StartsWith(part, "dport=")
    ensures StartsWith(part, "sport=") ==> !StartsWith(part, "dport=")
  {
    if StartsWith(part, "src=") { assert part[0] == 's' && part[1] == 'r'; }
    if StartsWith(part, "dst=") { assert part[0] == 'd' && part[1] == 's'; }
    if StartsWith(part, "sport=") { assert part[0] == 's' && part[1] == 'p'; }
    if StartsWith(part, "dport=") { assert part[0] == 'd' && part[1] == 'p'; }
  }

  /** One more token: a keyed token replaces the value, any other keeps it. */
  lemma LastValueStep(parts: seq<string>, j: nat, key: string)
    requires j < |parts| && KeyShaped(key)
    ensures StartsWith(parts[j], key) ==> '=' in parts[j] && LastValue(parts[..j + 1], key) == Some(SplitField1(parts[j]))
    ensures !StartsWith(parts[j], key) ==> LastValue(parts[..j + 1], key) == LastValue(parts[..j], key)
  {
    assert parts[..j + 1][..j] == parts[..j];
    if StartsWith(parts[j], key) {
      KeyedField(parts[j], key);
    }
  }

  /** The token loop over `src=`, `dst=`, `sport=` and `dport=` in this
      `elif` order: each keyed token overwrites its variable. */
  method ScanFields(parts: seq<string>) returns (srcIp: Option<string>, dstIp: Option<string>, srcPort: Option<string>, dstPort: Option<string>)
    ensures srcIp == LastValue(parts, "src=") && dstIp == LastValue(parts, "dst=")
    ensures srcPort == LastValue(parts, "sport=") && dstPort == LastValue(parts, "dport=")
  {
    srcIp, dstIp, srcPort, dstPort := None, None, None, None;
    var j := 0;
    while j < |parts|
      invariant 0 <= j <= |parts|
      invariant srcIp == LastValue(parts[..j], "src=")
      invariant dstIp == LastValue(parts[..j], "dst=")
      invariant srcPort == LastValue(parts[..j], "sport=")
      invariant dstPort == LastValue(parts[..j], "dport=")
    {
      var part := parts[j];
      KeysExclusive(part);
      LastValueStep(parts, j, "src=");
      LastValueStep(parts, j, "dst=");
      LastValueStep(parts, j, "sport=");
      LastValueStep(parts, j, "dport=");
      if StartsWith(part, "src=") {
        srcIp := Some(SplitField1(part));
      } else if StartsWith(part, "dst=") {
        dstIp := Some(SplitField1(part));
      } else if StartsWith(part, "sport=") {
        srcPort := Some(SplitField1(part));
      } else if StartsWith(part, "dport=") {
        dstPort := Some(SplitField1(part));
      }
      j := j + 1;
    }
    assert parts[..j] == parts;
  }

  /** The pattern `key([^\s]+)` matches at position i of line. */
  predicate MatchAt(line: string, key: string, i: int) {
    0 <= i && i + |key| < |line| && line[i..i + |key|] == key && !IsSpace(line[i + |key|])
  }

  /** The non-whitespace run at the start of s (the greedy `[^\s]+`). */
  function NonSpaceRun(s: string): string {
    s[..RunLength(s, c => !IsSpace(c))]
  }

  function SearchFrom(line: string, key: string, i: nat): Option<string>
    requires i <= |line|
    decreases |line| - i
  {
    if i + |key| >= |line| then None
    else if MatchAt(line, key, i) then Some(NonSpaceRun(line[i + |key|..]))
    else SearchFrom(line, key, i + 1)
  }

  /** `m = re.search(key + r'([^\s]+)', line); m.group(1) if m else None`
      for a key without regular-expression metacharacters. */
  function ExtractValue(line: string, key: string): Option<string> {
    SearchFrom(line, key, 0)
  }

  lemma {:induction false} SearchFromSpec(line: string, key: string, i: nat)
    requires i <= |line|
    ensures SearchFrom(line, key, i).Some? <==> exists j :: i <= j && MatchAt(line, key, j)
    ensures SearchFrom(line, key, i).Some? ==>
      exists j :: i <= j && MatchAt(line, key, j)
        && (forall k :: i <= k < j ==> !MatchAt(line, key, k))
        && SearchFrom(line, key, i).value == NonSpaceRun(line[j + |key|..])
    decreases |line| - i
  {
    if i + |key| >= |line| {
      assert forall j :: i <= j ==> !MatchAt(line, key, j);
    } else if !MatchAt(line, key, i) {
      SearchFromSpec(line, key, i + 1);
      assert forall j :: i <= j && MatchAt(line, key, j) ==> i + 1 <= j;
    }
  }

  /** The value found is the non-whitespace run after the FIRST occurrence of
      the key that is followed by a non-whitespace character; there is none
      exactly when no occurrence of the key is followed by one. */
  lemma ExtractValueSpec(line: string, key: string)
    ensures ExtractValue(line, key).None? <==> forall j :: !MatchAt(line, key, j)
    ensures ExtractValue(line, key).Some? ==>
      exists j :: MatchAt(line, key, j)
        && (forall k :: 0 <= k < j ==> !MatchAt(line, key, k))
        && ExtractValue(line, key).value == NonSpaceRun(line[j + |key|..])
        && ExtractValue(line, key).value != []
  {
    SearchFromSpec(line, key, 0);
  }

  // ----- int() and str() on integers -----

  function DigitValue(c: char): nat requires IsDigit(c) { (c as int) - ('0' as int) }

  function DigitChar(d: nat): (c: char)
    requires d < 10
    ensures IsDigit(c) && DigitValue(c) == d
  {
    ('0' as int + d) as char
  }

  /** Digits with single underscores between them, as int() accepts. */
  predicate DigitGroups(s: string) {
    s != [] && IsDigit(s[0]) && IsDigit(s[|s| - 1])
    && forall i :: 0 <= i < |s| ==> IsDigit(s[i]) || (s[i] == '_' && i + 1 < |s| && IsDigit(s[i + 1]))
  }

  /** The number the digits of s spell, underscores skipped. */
  function DigitsValue(s: string): nat
    decreases |s|
  {
    if s == [] then 0
    else
      var c := s[|s| - 1];
      if IsDigit(c) then DigitsValue(s[..|s| - 1]) * 10 + DigitValue(c)
      else DigitsValue(s[..|s| - 1])
  }

  /** Python's `int(s)` for a str: surrounding whitespace, an optional sign and
      decimal digits, possibly grouped by underscores; None where `int()` raises
      ValueError. */
  function PyInt(s: string): Option<int> {
    var t := Strip(s);
    if t != [] && (t[0] == '+' || t[0] == '-') then
      if DigitGroups(t[1..]) then
        var v: int := DigitsValue(t[1..]);
        Some(if t[0] == '-' then -v else v)
      else None
    else if DigitGroups(t) then Some(DigitsValue(t))
    else None
  }

  function NatDec(n: nat): (s: string)
    ensures s != [] && AllDigits(s)
    decreases n
  {
    if n < 10 then [DigitChar(n)] else NatDec(n / 10) + [DigitChar(n % 10)]
  }

  /** `str(n)` for an int. */
  function Dec(n: int): string {
    if n < 0 then "-" + NatDec(-n) else NatDec(n)
  }

  lemma {:induction false} NatDecValue(n: nat)
    ensures DigitGroups(NatDec(n)) && DigitsValue(NatDec(n)) == n
    decreases n
  {
    var s := NatDec(n);
    if n >= 10 {
      NatDecValue(n / 10);
      assert s[..|s| - 1] == NatDec(n / 10);
    }
  }

  /** `int(str(n)) == n`. */
  lemma PyIntDec(n: int)
    ensures PyInt(Dec(n)) == Some(n)
  {
    var s := Dec(n);
    if n < 0 {
      var d := NatDec(-n);
      NatDecValue(-n);
      assert s == "-" + d && s[1..] == d;
      StripClean(s);
    } else {
      NatDecValue(n);
      assert IsDigit(s[0]) && IsDigit(s[|s| - 1]);
      StripClean(s);
    }
  }

  /** Nothing to strip when neither end is whitespace. */
  lemma StripClean(s: string)
    requires s != [] && !IsSpace(s[0]) && !IsSpace(s[|s| - 1])
    ensures Strip(s) == s
  {
  }

  // ----- the shell filters in front of the parsers -----

  predicate IsBlank(c: char) { c == ' ' || c == '\t' || c == '\n' }

  /** awk's `$n` (1-based) with the default field separator; "" beyond NF. */
  function AwkField(line: string, n: nat): string {
    var fields := SplitRuns(line, IsBlank);
    if 1 <= n <= |fields| then fields[n - 1] else ""
  }

  /** The line that `awk '{print $7,$8}'` prints for an input line. */
  function AwkPrint78(line: string): string {
    AwkField(line, 7) + " " + AwkField(line, 8)
  }

  /** The text after `dport=` starts with a number that
      `(5667|[6-9][0-9]{3}|[1-9][0-9]{4})` matches. */
  predicate VpnPortPrefix(t: string) {
    StartsWith(t, "5667")
    || (|t| >= 4 && '6' <= t[0] <= '9' && AllDigits(t[1..4]))
    || (|t| >= 5 && '1' <= t[0] <= '9' && AllDigits(t[1..5]))
  }

  /** A line that `grep -E 'dport=(5667|[6-9][0-9]{3}|[1-9][0-9]{4})'` prints. */
  predicate VpnPortLine(line: string) {
    exists i :: 0 <= i <= |line| - 6 && OccursAt(line, "dport=", i) && VpnPortPrefix(line[i + 6..])
  }

  /** The lines that `conntrack -L -p udp | grep -E 'dport=(...)'` passes on,
      as the Python code sees them after `split('\n')` (the empty piece after
      the final newline never matches, so it is left out). */
  function VpnLines(stdout: string): (r: seq<string>)
    ensures forall i :: 0 <= i < |r| ==> VpnPortLine(r[i])
  {
    FilterLines(Lines(stdout))
  }

  function FilterLines(lines: seq<string>): (r: seq<string>)
    ensures |r| <= |lines|
    ensures forall i :: 0 <= i < |r| ==> VpnPortLine(r[i]) && r[i] in lines
    decreases |lines|
  {
    if lines == [] then []
    else
      var last := lines[|lines| - 1];
      FilterLines(lines[..|lines| - 1]) + (if VpnPortLine(last) then [last] else [])
  }
}
