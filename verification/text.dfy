/**
  The PHP string built-ins the modelled code relies on, over `string` = seq<char>:
  `strtolower` (ASCII), `trim` (default character list), `strpos`, `explode`,
  `substr(...) === $prefix` tests, and decimal conversion of numbers.
 */
module Text {
  import opened Wrappers

  // ---------------------------------------------------------------- case

  function LowerChar(c: char): char {
    if 'A' <= c <= 'Z' then (c as int + 32) as char else c
  }

  /** `strtolower`: only the ASCII letters A-Z change. */
  function Lower(s: string): string {
    seq(|s|, i requires 0 <= i < |s| => LowerChar(s[i]))
  }

  predicate IsLowerCase(s: string) {
    forall i :: 0 <= i < |s| ==> !('A' <= s[i] <= 'Z')
  }

  lemma LowerIsLowerCase(s: string)
    ensures IsLowerCase(Lower(s)) && Lower(Lower(s)) == Lower(s)
    ensures IsLowerCase(s) ==> Lower(s) == s
  {
  }

  // ---------------------------------------------------------------- trim

  /** The characters PHP's `trim` strips by default: " \t\n\r\0\x0B". */
  predicate IsBlank(c: char) {
    c == ' ' || c == '\t' || c == '\n' || c == '\r' || c as int == 0 || c as int == 11
  }

  /** Neither starts nor ends with a blank. */
  predicate Trimmed(s: string) {
    s == [] || (!IsBlank(s[0]) && !IsBlank(s[|s| - 1]))
  }

  function LeadingBlanks(s: string): (n: nat)
    ensures n <= |s|
    ensures forall k :: 0 <= k < n ==> IsBlank(s[k])
    ensures n < |s| ==> !IsBlank(s[n])
  {
    if |s| > 0 && IsBlank(s[0]) then 1 + LeadingBlanks(s[1..]) else 0
  }

  function TrailingBlanks(s: string): (n: nat)
    ensures n <= |s|
    ensures forall k :: |s| - n <= k < |s| ==> IsBlank(s[k])
    ensures n < |s| ==> !IsBlank(s[|s| - 1 - n])
  {
    if |s| > 0 && IsBlank(s[|s| - 1]) then 1 + TrailingBlanks(s[..|s| - 1]) else 0
  }

  /** `trim`: the longest middle piece of `s` that neither starts nor ends with a blank;
      everything cut off on either side is blank. */
  function Trim(s: string): (r: string)
    ensures r == [] || (!IsBlank(r[0]) && !IsBlank(r[|r| - 1]))
    ensures exists i, j :: 0 <= i <= j <= |s| && r == s[i..j]
                           && (forall k :: 0 <= k < i ==> IsBlank(s[k]))
                           && (forall k :: j <= k < |s| ==> IsBlank(s[k]))
  {
    var i := LeadingBlanks(s);
    var j := if i == |s| then i else |s| - TrailingBlanks(s);
    assert i < j ==> s[i..j][0] == s[i] && s[i..j][j - i - 1] == s[j - 1];
    s[i..j]
  }

  lemma {:induction false} LeadingBlanksPadded(pad: string, m: string)
    requires forall k :: 0 <= k < |pad| ==> IsBlank(pad[k])
    requires m == [] || !IsBlank(m[0])
    ensures LeadingBlanks(pad + m) == |pad|
    decreases |pad|
  {
    if pad == [] {
      assert pad + m == m;
    } else {
      LeadingBlanksPadded(pad[1..], m);
      assert (pad + m)[1..] == pad[1..] + m;
    }
  }

  /** A value with blanks in front and nothing blank at its ends trims to itself. */
  lemma TrimPadded(pad: string, m: string)
    requires forall k :: 0 <= k < |pad| ==> IsBlank(pad[k])
    requires Trimmed(m)
    ensures Trim(pad + m) == m
  {
    LeadingBlanksPadded(pad, m);
    var s := pad + m;
    assert s[|pad|..] == m;
    assert TrailingBlanks(m) == 0;
    assert s[|pad|..|pad| + |m|] == m;
  }

  // ---------------------------------------------------------------- strpos

  predicate OccursAt(s: string, sub: string, k: int) {
    0 <= k && k + |sub| <= |s| && s[k..k + |sub|] == sub
  }

  /** `strpos($s, $sub, $from)`: the first occurrence at or after `from`, or None (false). */
  function IndexOfFrom(s: string, sub: string, from: nat): (r: Option<nat>)
    ensures r.Some? ==> from <= r.value && OccursAt(s, sub, r.value)
    ensures r.Some? ==> forall k :: from <= k < r.value ==> !OccursAt(s, sub, k)
    ensures r.None? ==> forall k :: from <= k ==> !OccursAt(s, sub, k)
    decreases |s| - from
  {
    if from + |sub| > |s| then None
    else if s[from..from + |sub|] == sub then Some(from)
    else IndexOfFrom(s, sub, from + 1)
  }

  function IndexOf(s: string, sub: string): Option<nat> {
    IndexOfFrom(s, sub, 0)
  }

  /** For a one-character needle, `strpos` finds exactly the first position holding it. */
  lemma IndexOfChar(s: string, c: char)
    ensures IndexOf(s, [c]).None? <==> c !in s
    ensures IndexOf(s, [c]).Some? ==>
              var p := IndexOf(s, [c]).value; p < |s| && s[p] == c && c !in s[..p]
  {
    var r := IndexOf(s, [c]);
    if r.Some? {
      var p := r.value;
      assert s[p..p + 1] == [c];
      assert s[p] == c;
      forall k | 0 <= k < p ensures s[k] != c {
        assert !OccursAt(s, [c], k);
        assert s[k..k + 1] == [s[k]];
      }
      assert forall k :: 0 <= k < p ==> s[..p][k] == s[k];
    } else {
      forall k | 0 <= k < |s| ensures s[k] != c {
        assert !OccursAt(s, [c], k);
        assert s[k..k + 1] == [s[k]];
      }
    }
  }

  /** A needle whose first character does not occur in `a` is first found right after `a`. */
  lemma IndexOfAfter(a: string, sep: string, b: string)
    requires |sep| > 0 && sep[0] !in a
    ensures IndexOf(a + sep + b, sep) == Some(|a|)
  {
    var s := a + sep + b;
    assert s[|a|..|a| + |sep|] == sep;
    assert OccursAt(s, sep, |a|);
    forall k | 0 <= k < |a| ensures !OccursAt(s, sep, k) {
      assert s[k] == a[k];
      if k + |sep| <= |s| {
        assert s[k..k + |sep|][0] == s[k];
      }
    }
  }

  lemma IndexOfAbsent(s: string, sep: string)
    requires |sep| > 0 && sep[0] !in s
    ensures IndexOf(s, sep) == None
  {
    forall k | 0 <= k ensures !OccursAt(s, sep, k) {
      if k + |sep| <= |s| {
        assert s[k..k + |sep|][0] == s[k];
      }
    }
  }

  // ---------------------------------------------------------------- explode

  /** `explode($sep, $s)`: the pieces between the leftmost non-overlapping occurrences of `sep`. */
  function Split(s: string, sep: string): (r: seq<string>)
    requires |sep| > 0
    ensures |r| >= 1
    decreases |s|
  {
    match IndexOf(s, sep)
    case None => [s]
    case Some(i) => [s[..i]] + Split(s[i + |sep|..], sep)
  }

  /** `implode($sep, $parts)`. */
  function JoinWith(parts: seq<string>, sep: string): string
    decreases |parts|
  {
    if |parts| == 0 then "" else if |parts| == 1 then parts[0]
    else parts[0] + sep + JoinWith(parts[1..], sep)
  }

  /** `implode($sep, explode($sep, $s)) == $s`: explode loses nothing but the separators. */
  lemma {:induction false} SplitJoin(s: string, sep: string)
    requires |sep| > 0
    ensures JoinWith(Split(s, sep), sep) == s
    decreases |s|
  {
    var r := IndexOf(s, sep);
    if r.Some? {
      var i := r.value;
      var a, rest := s[..i], s[i + |sep|..];
      assert s[i..i + |sep|] == sep by { assert OccursAt(s, sep, i); }
      assert s == a + sep + rest;
      SplitJoin(rest, sep);
      var tail := Split(rest, sep);
      assert Split(s, sep) == [a] + tail;
      JoinCons(a, tail, sep);
    } else {
      assert Split(s, sep) == [s];
    }
  }

  /** `explode($sep, implode($sep, $parts)) == $parts` when no part holds the separator's
      first character. */
  lemma {:induction false} JoinSplit(parts: seq<string>, sep: string)
    requires |sep| > 0 && |parts| >= 1
    requires forall i :: 0 <= i < |parts| ==> sep[0] !in parts[i]
    ensures Split(JoinWith(parts, sep), sep) == parts
    decreases |parts|
  {
    if |parts| == 1 {
      SplitNone(parts[0], sep);
    } else {
      var tail := parts[1..];
      JoinSplit(tail, sep);
      assert parts == [parts[0]] + tail;
      JoinCons(parts[0], tail, sep);
      SplitCons(parts[0], sep, JoinWith(tail, sep));
    }
  }

  lemma JoinCons(p: string, tail: seq<string>, sep: string)
    requires |tail| >= 1
    ensures JoinWith([p] + tail, sep) == p + sep + JoinWith(tail, sep)
  {
    assert ([p] + tail)[1..] == tail;
  }

  /** No piece that explode returns contains the separator. */
  lemma {:induction false} SplitPieces(s: string, sep: string)
    requires |sep| > 0
    ensures forall p :: p in Split(s, sep) ==> IndexOf(p, sep).None?
    decreases |s|
  {
    match IndexOf(s, sep)
    case None =>
    case Some(i) =>
      var rest := s[i + |sep|..];
      var pieces := Split(rest, sep);
      SplitPieces(rest, sep);
      BeforeFirstOccurrence(s, sep, i);
      assert Split(s, sep) == [s[..i]] + pieces;
      forall p | p in [s[..i]] + pieces ensures IndexOf(p, sep).None? {
        if p != s[..i] {
          assert p in pieces;
        }
      }
  }

  /** What comes before the first occurrence holds no occurrence. */
  lemma BeforeFirstOccurrence(s: string, sep: string, i: nat)
    requires |sep| > 0 && IndexOf(s, sep) == Some(i)
    ensures IndexOf(s[..i], sep).None?
  {
    forall k | 0 <= k ensures !OccursAt(s[..i], sep, k) {
      if k + |sep| <= i {
        assert !OccursAt(s, sep, k);
        assert s[..i][k..k + |sep|] == s[k..k + |sep|];
      }
    }
  }

  /** Splitting a string that begins with a separator-free piece. */
  lemma SplitCons(a: string, sep: string, b: string)
    requires |sep| > 0 && sep[0] !in a
    ensures Split(a + sep + b, sep) == [a] + Split(b, sep)
  {
    IndexOfAfter(a, sep, b);
    var s := a + sep + b;
    assert s[..|a|] == a;
    assert s[|a| + |sep|..] == b;
  }

  lemma SplitNone(s: string, sep: string)
    requires |sep| > 0 && sep[0] !in s
    ensures Split(s, sep) == [s]
  {
    IndexOfAbsent(s, sep);
  }

  // ---------------------------------------------------------------- decimal numbers

  predicate IsDigit(c: char) { '0' <= c <= '9' }

  predicate IsDigits(s: string) { forall i :: 0 <= i < |s| ==> IsDigit(s[i]) }

  function DigitChar(d: nat): char
    requires d < 10
  {
    ('0' as int + d) as char
  }

  function DigitValue(c: char): nat
    requires IsDigit(c)
  {
    c as int - '0' as int
  }

  /** The decimal value of a string of digits ("" counts as 0). */
  function DigitsValue(s: string): nat
    requires IsDigits(s)
    decreases |s|
  {
    if s == [] then 0 else 10 * DigitsValue(s[..|s| - 1]) + DigitValue(s[|s| - 1])
  }

  /** The decimal notation of `n`, without leading zeros, as PHP prints an int. */
  function NatToString(n: nat): (r: string)
    ensures |r| >= 1 && IsDigits(r)
    ensures n >= 10 ==> r[0] != '0'
    ensures n < 10 <==> |r| == 1
    decreases n
  {
    if n < 10 then [DigitChar(n)] else NatToString(n / 10) + [DigitChar(n % 10)]
  }

  lemma {:induction false} NatToStringValue(n: nat)
    ensures DigitsValue(NatToString(n)) == n
    decreases n
  {
    if n >= 10 {
      NatToStringValue(n / 10);
      var s := NatToString(n);
      assert s[..|s| - 1] == NatToString(n / 10);
    }
  }

  /** A leading zero does not change the value of a digit string. */
  lemma {:induction false} LeadingZeroValue(s: string)
    requires IsDigits(s)
    ensures IsDigits("0" + s) && DigitsValue("0" + s) == DigitsValue(s)
    decreases |s|
  {
    if s != [] {
      var init := s[..|s| - 1];
      LeadingZeroValue(init);
      assert ("0" + s)[..|"0" + s| - 1] == "0" + init;
    }
  }

  /** PHP prints a negative int with a leading '-'. */
  function IntToString(i: int): string {
    if i < 0 then "-" + NatToString(-i) else NatToString(i)
  }

  /** Reads back what IntToString writes: an optional '-' and then digits. */
  function IntValue(s: string): Option<int> {
    if |s| > 0 && s[0] == '-' && IsDigits(s[1..]) then Some(-(DigitsValue(s[1..]) as int))
    else if IsDigits(s) then Some(DigitsValue(s))
    else None
  }

  lemma IntToStringValue(i: int)
    ensures IntValue(IntToString(i)) == Some(i)
  {
    if i < 0 {
      var t := NatToString(-i);
      NatToStringValue(-i);
      var s := "-" + t;
      assert s[1..] == t;
      assert s[0] == '-';
      assert IntValue(s) == Some(-(DigitsValue(t) as int));
    } else {
      var t := NatToString(i);
      NatToStringValue(i);
      assert t[0] != '-';
    }
  }

  /** The digits at the start of `s`, as far as they go. */
  function LeadingDigits(s: string): (r: string)
    ensures IsDigits(r) && r <= s
    ensures |r| < |s| ==> !IsDigit(s[|r|])
  {
    if |s| > 0 && IsDigit(s[0]) then [s[0]] + LeadingDigits(s[1..]) else ""
  }

  lemma LeadingDigitsOfDigits(s: string)
    requires IsDigits(s)
    ensures LeadingDigits(s) == s
  {
  }
}
