/** The string operations the type language is built on: trimming, comma
    splitting, the nesting-aware split of internal/kind, and decimal text. */
module Text {
  import opened Common

  // ---- white space ---------------------------------------------------------

  /** unicode.IsSpace. */
  predicate IsSpace(c: char) {
    || '\t' <= c <= '\r' || c == ' '
    || c == '\U{0085}' || c == '\U{00A0}' || c == '\U{1680}'
    || '\U{2000}' <= c <= '\U{200A}'
    || c == '\U{2028}' || c == '\U{2029}' || c == '\U{202F}' || c == '\U{205F}' || c == '\U{3000}'
  }

  function TrimLeft(s: string): (t: string)
    ensures |t| <= |s| && t == s[|s| - |t|..]
    ensures t != "" ==> !IsSpace(t[0])
  {
    if s != "" && IsSpace(s[0]) then TrimLeft(s[1..]) else s
  }

  function TrimRight(s: string): (t: string)
    ensures t <= s
    ensures t != "" ==> !IsSpace(t[|t| - 1])
  {
    if s != "" && IsSpace(s[|s| - 1]) then TrimRight(s[..|s| - 1]) else s
  }

  /** strings.TrimSpace. */
  function Trim(s: string): (t: string)
    ensures |t| <= |s|
    ensures t != "" ==> !IsSpace(t[0]) && !IsSpace(t[|t| - 1])
    ensures Trimmed(s) ==> t == s
  {
    TrimRight(TrimLeft(s))
  }

  predicate Trimmed(s: string) {
    s != "" ==> !IsSpace(s[0]) && !IsSpace(s[|s| - 1])
  }

  // ---- commas --------------------------------------------------------------

  /** strings.Split(s, ","): one piece more than there are commas. */
  function SplitCommas(s: string): (parts: seq<string>)
    ensures |parts| >= 1
    ensures forall i | 0 <= i < |parts| :: ',' !in parts[i]
  {
    if s == "" then [""]
    else
      var rest := SplitCommas(s[1..]);
      if s[0] == ',' then [""] + rest else [[s[0]] + rest[0]] + rest[1..]
  }

  /** strings.Join(parts, ","). */
  function JoinCommas(parts: seq<string>): string {
    if |parts| == 0 then ""
    else if |parts| == 1 then parts[0]
    else parts[0] + "," + JoinCommas(parts[1..])
  }

  /** strings.LastIndex(s, ","), -1 when there is none. */
  function LastComma(s: string): (i: int)
    ensures -1 <= i < |s|
    ensures i >= 0 ==> s[i] == ','
    ensures forall j | i < j < |s| :: s[j] != ','
  {
    if s == "" then -1
    else if s[|s| - 1] == ',' then |s| - 1
    else LastComma(s[..|s| - 1])
  }

  lemma {:induction false} SplitNoComma(s: string)
    requires ',' !in s
    ensures SplitCommas(s) == [s]
  {
    if s != "" {
      SplitNoComma(s[1..]);
      assert [s[0]] + s[1..] == s;
    }
  }

  lemma {:induction false} SplitAtComma(s: string, t: string)
    requires ',' !in s
    ensures SplitCommas(s + "," + t) == [s] + SplitCommas(t)
  {
    if s == "" {
      assert (s + "," + t)[1..] == t;
    } else {
      SplitAtComma(s[1..], t);
      assert (s + "," + t)[1..] == s[1..] + "," + t;
      assert [s[0]] + s[1..] == s;
    }
  }

  /** Splitting undoes joining exactly when no part contains the separator. */
  lemma {:induction false} SplitUndoesJoin(parts: seq<string>)
    requires |parts| >= 1
    ensures SplitCommas(JoinCommas(parts)) == parts <==> forall i | 0 <= i < |parts| :: ',' !in parts[i]
  {
    if forall i | 0 <= i < |parts| :: ',' !in parts[i] {
      SplitJoin(parts);
    }
  }

  lemma {:induction false} SplitJoin(parts: seq<string>)
    requires |parts| >= 1
    requires forall i | 0 <= i < |parts| :: ',' !in parts[i]
    ensures SplitCommas(JoinCommas(parts)) == parts
  {
    if |parts| == 1 {
      SplitNoComma(parts[0]);
      assert parts == [parts[0]];
    } else {
      SplitJoin(parts[1..]);
      SplitAtComma(parts[0], JoinCommas(parts[1..]));
      assert parts == [parts[0]] + parts[1..];
    }
  }

  // ---- splitting at nesting depth zero -------------------------------------

  /** How one character moves the nesting depth. */
  function Step(c: char): int {
    if c == '<' || c == '[' then 1 else if c == '>' || c == ']' then -1 else 0
  }

  /** The parts of `s` between the commas that stand at depth 0, when the text
      before `s` has left the scan at depth `depth`. */
  function TopLevelParts(s: string, depth: int): (parts: seq<string>)
    ensures |parts| >= 1
  {
    if s == "" then [""]
    else if s[0] == ',' && depth == 0 then [""] + TopLevelParts(s[1..], depth)
    else
      var rest := TopLevelParts(s[1..], depth + Step(s[0]));
      [[s[0]] + rest[0]] + rest[1..]
  }

  /** Scans `s` from `depth`: the final depth, or None when a comma is met at depth 0. */
  function Scan(s: string, depth: int): Option<int> {
    if s == "" then Some(depth)
    else if s[0] == ',' && depth == 0 then None
    else Scan(s[1..], depth + Step(s[0]))
  }

  lemma {:induction false} ScanAppend(s: string, t: string, depth: int)
    ensures Scan(s + t, depth) == if Scan(s, depth).None? then None else Scan(t, Scan(s, depth).value)
  {
    if s == "" {
      assert s + t == t;
    } else {
      assert (s + t)[1..] == s[1..] + t;
      if !(s[0] == ',' && depth == 0) {
        ScanAppend(s[1..], t, depth + Step(s[0]));
      }
    }
  }

  /** Text that scans through joins the first part of what follows it. */
  lemma {:induction false} PartsAfterScan(s: string, t: string, depth: int)
    requires Scan(s, depth).Some?
    ensures var rest := TopLevelParts(t, Scan(s, depth).value);
            TopLevelParts(s + t, depth) == [s + rest[0]] + rest[1..]
  {
    var rest := TopLevelParts(t, Scan(s, depth).value);
    if s == "" {
      assert s + t == t && s + rest[0] == rest[0];
    } else {
      assert (s + t)[1..] == s[1..] + t;
      PartsAfterScan(s[1..], t, depth + Step(s[0]));
      assert [s[0]] + (s[1..] + rest[0]) == s + rest[0];
    }
  }

  /** Two texts balanced at depth 0 come back apart. */
  lemma SplitPair(k: string, v: string)
    requires Scan(k, 0) == Some(0) && Scan(v, 0) == Some(0)
    ensures TopLevelParts(k + "," + v, 0) == [k, v]
  {
    PartsAfterScan(v, "", 0);
    assert v + "" == v;
    assert TopLevelParts(v, 0) == [v];
    assert TopLevelParts("," + v, 0) == [""] + TopLevelParts(v, 0) by {
      assert ("," + v)[1..] == v;
    }
    PartsAfterScan(k, "," + v, 0);
    assert k + "" == k;
    assert k + ("," + v) == k + "," + v;
  }

  lemma Regroup(a: string, b: string, c: string, d: string)
    ensures (a + b) + c + d == a + (b + c + d)
  {
  }

  lemma JoinGrown(c: char, parts: seq<string>)
    requires |parts| >= 1
    ensures JoinCommas([[c] + parts[0]] + parts[1..]) == [c] + JoinCommas(parts)
  {
    var grown := [[c] + parts[0]] + parts[1..];
    if |parts| > 1 {
      var rest := JoinCommas(parts[1..]);
      assert grown[1..] == parts[1..];
      assert JoinCommas(grown) == grown[0] + "," + rest && JoinCommas(parts) == parts[0] + "," + rest;
      hide JoinCommas;
      Regroup([c], parts[0], ",", rest);
    }
  }

  /** The parts, glued back with commas, are the text: nothing is lost or invented. */
  lemma {:induction false} PartsRejoin(s: string, depth: int)
    ensures JoinCommas(TopLevelParts(s, depth)) == s
  {
    if s != "" {
      if s[0] == ',' && depth == 0 {
        PartsRejoin(s[1..], depth);
        var rest := TopLevelParts(s[1..], depth);
        assert ([""] + rest)[1..] == rest;
      } else {
        PartsRejoin(s[1..], depth + Step(s[0]));
        JoinGrown(s[0], TopLevelParts(s[1..], depth + Step(s[0])));
        hide JoinCommas;
        assert [s[0]] + s[1..] == s;
      }
    }
  }

  /** `head` written in front of the first part. */
  ghost function Glue(head: string, parts: seq<string>): seq<string>
    requires |parts| >= 1
  {
    [head + parts[0]] + parts[1..]
  }

  /** The parts already cut, and the text still to be read, make up the parts of `s`. */
  ghost predicate Cut(s: string, parts: seq<string>, start: int, i: int, depth: int)
    requires 0 <= start <= i <= |s|
  {
    TopLevelParts(s, 0) == parts + Glue(s[start..i], TopLevelParts(s[i..], depth))
  }

  lemma CutSeparator(s: string, parts: seq<string>, start: int, i: int)
    requires 0 <= start <= i < |s| && s[i] == ',' && Cut(s, parts, start, i, 0)
    ensures Cut(s, parts + [s[start..i]], i + 1, i + 1, 0)
  {
    assert s[i..][1..] == s[i + 1..] && s[i + 1..i + 1] == "";
    var rest := TopLevelParts(s[i + 1..], 0);
    assert "" + rest[0] == rest[0] && s[start..i] + "" == s[start..i];
    assert parts + ([s[start..i]] + rest) == (parts + [s[start..i]]) + rest;
  }

  lemma CutOther(s: string, parts: seq<string>, start: int, i: int, depth: int)
    requires 0 <= start <= i < |s| && !(s[i] == ',' && depth == 0) && Cut(s, parts, start, i, depth)
    ensures Cut(s, parts, start, i + 1, depth + Step(s[i]))
  {
    assert s[i..][1..] == s[i + 1..];
    var rest := TopLevelParts(s[i + 1..], depth + Step(s[i]));
    assert s[start..i] + ([s[i]] + rest[0]) == s[start..i + 1] + rest[0];
  }

  /** kind.SplitTopLevel: one pass with a depth counter and the start of the
      part being read. */
  method SplitTopLevel(s: string) returns (parts: seq<string>)
    ensures parts == TopLevelParts(s, 0)
    ensures JoinCommas(parts) == s
  {
    PartsRejoin(s, 0);
    parts := [];
    var depth, start := 0, 0;
    assert Cut(s, parts, 0, 0, 0) by {
      assert "" + TopLevelParts(s, 0)[0] == TopLevelParts(s, 0)[0] && s[0..] == s && s[0..0] == "";
    }
    for i := 0 to |s|
      invariant 0 <= start <= i
      invariant Cut(s, parts, start, i, depth)
    {
      var c := s[i];
      if c == ',' && depth == 0 {
        CutSeparator(s, parts, start, i);
        parts := parts + [s[start..i]];
        start := i + 1;
      } else {
        CutOther(s, parts, start, i, depth);
        if c == '<' || c == '[' {
          depth := depth + 1;
        } else if c == '>' || c == ']' {
          depth := depth - 1;
        }
      }
    }
    assert s[start..|s|] + "" == s[start..];
    parts := parts + [s[start..]];
  }

  // ---- decimal text --------------------------------------------------------

  function DigitChar(d: int): (c: char)
    requires 0 <= d < 10
    ensures IsDigit(c) && DigitValue(c) == d
  {
    ['0', '1', '2', '3', '4', '5', '6', '7', '8', '9'][d]
  }

  predicate IsDigit(c: char) { '0' <= c <= '9' }

  function DigitValue(c: char): (d: int)
    requires IsDigit(c)
    ensures 0 <= d < 10
  {
    c as int - '0' as int
  }

  predicate AllDigits(s: string) { forall i | 0 <= i < |s| :: IsDigit(s[i]) }

  /** The decimal digits of a natural number, without leading zeros. */
  function Digits(n: nat): (s: string)
    ensures s != "" && AllDigits(s)
    ensures n > 0 ==> s[0] != '0'
  {
    if n < 10 then [DigitChar(n)] else Digits(n / 10) + [DigitChar(n % 10)]
  }

  function DigitsValue(s: string): (n: nat)
    requires AllDigits(s)
  {
    if s == "" then 0 else 10 * DigitsValue(s[..|s| - 1]) + DigitValue(s[|s| - 1])
  }

  lemma {:induction false} DigitsValueOfDigits(n: nat)
    ensures DigitsValue(Digits(n)) == n
  {
    var s := Digits(n);
    if n < 10 {
      assert s[..|s| - 1] == "";
    } else {
      DigitsValueOfDigits(n / 10);
      assert s[..|s| - 1] == Digits(n / 10);
    }
  }

  /** Integer text as the runner and the workers print it. */
  function IntText(n: int): (s: string)
    ensures s != ""
  {
    if n < 0 then "-" + Digits(-n) else Digits(n)
  }

  /** Decimal text with an optional sign (strconv.ParseInt and big.Int.SetString,
      before any range check). */
  function ParseSigned(s: string): Option<int> {
    if s != "" && (s[0] == '-' || s[0] == '+') then
      if s[1..] != "" && AllDigits(s[1..]) then
        Some(var n: int := DigitsValue(s[1..]); if s[0] == '-' then -n else n)
      else None
    else ParseUnsigned(s)
  }

  /** Decimal text without a sign (strconv.ParseUint, before its range check). */
  function ParseUnsigned(s: string): Option<int> {
    if s != "" && AllDigits(s) then Some(DigitsValue(s)) else None
  }

  lemma ParseSignedOfText(n: int)
    ensures ParseSigned(IntText(n)) == Some(n)
    ensures n >= 0 ==> ParseUnsigned(IntText(n)) == Some(n)
  {
    DigitsValueOfDigits(if n < 0 then -n else n);
    if n < 0 {
      assert IntText(n)[1..] == Digits(-n);
    } else {
      assert IsDigit(IntText(n)[0]);
    }
  }

  /** strconv.Atoi on a 64-bit platform. */
  function Atoi(s: string): Option<int> {
    var n := ParseSigned(s);
    if n.Some? && -0x8000_0000_0000_0000 <= n.value < 0x8000_0000_0000_0000 then n else None
  }

  lemma IntTextTrimmed(n: int)
    ensures Trimmed(IntText(n)) && ',' !in IntText(n) && '\n' !in IntText(n)
    ensures forall i | 0 <= i < |IntText(n)| :: Step(IntText(n)[i]) == 0
  {
    var s := IntText(n);
    assert forall i | 0 <= i < |s| :: IsDigit(s[i]) || s[i] == '-';
    assert forall c | IsDigit(c) || c == '-' :: !IsSpace(c);
  }
}
