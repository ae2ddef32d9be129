/** Text operations with the meaning Python's `str` methods give them, on
    strings seen as sequences of characters. Whitespace, digits and letter
    case are the ASCII ones. */
module Strings {

  predicate StartsWith(s: string, prefix: string) {
    |prefix| <= |s| && s[..|prefix|] == prefix
  }

  predicate EndsWith(s: string, suffix: string) {
    |suffix| <= |s| && s[|s| - |suffix|..] == suffix
  }

  /** `sub` occurs in `s` at index `k`. */
  predicate OccursAt(s: string, sub: string, k: nat) {
    k + |sub| <= |s| && s[k..k + |sub|] == sub
  }

  /** `s.find(sub, i)`: the first index at or after `i` where `sub` occurs, or -1. */
  function FindFrom(s: string, sub: string, i: nat): (r: int)
    requires i <= |s|
    ensures r == -1 || (i <= r && OccursAt(s, sub, r))
    ensures forall k: nat :: i <= k && (r == -1 || k < r) ==> !OccursAt(s, sub, k)
    decreases |s| - i
  {
    if i + |sub| > |s| then -1
    else if s[i..i + |sub|] == sub then i
    else FindFrom(s, sub, i + 1)
  }

  /** `s.find(sub)`. */
  function Find(s: string, sub: string): int {
    FindFrom(s, sub, 0)
  }

  /** `sub in s`. */
  predicate Contains(s: string, sub: string) {
    Find(s, sub) >= 0
  }

  lemma ContainsChar(s: string, c: char)
    ensures Contains(s, [c]) <==> c in s
  {
    var r := Find(s, [c]);
    if c in s {
      var k :| 0 <= k < |s| && s[k] == c;
      assert s[k..k + 1] == [c];
      assert OccursAt(s, [c], k);
    }
    if r >= 0 {
      assert s[r..r + 1] == [c];
      assert s[r] == c;
    }
  }

  /** `s.split(sep)` for a non-empty separator: the pieces between the
      non-overlapping occurrences of `sep`, scanned from the left. */
  function Split(s: string, sep: string): (parts: seq<string>)
    requires |sep| > 0
    ensures |parts| >= 1
    decreases |s|
  {
    var i := Find(s, sep);
    if i < 0 then [s]
    else [s[..i]] + Split(s[i + |sep|..], sep)
  }

  /** `sep.join(parts)`. */
  function Join(parts: seq<string>, sep: string): string {
    if |parts| == 0 then ""
    else if |parts| == 1 then parts[0]
    else parts[0] + sep + Join(parts[1..], sep)
  }

  /** Joining the pieces of a split gives back the original text. */
  lemma {:induction false} JoinSplit(s: string, sep: string)
    requires |sep| > 0
    ensures Join(Split(s, sep), sep) == s
    decreases |s|
  {
    var i := Find(s, sep);
    if i >= 0 {
      var rest := s[i + |sep|..];
      var parts := Split(s, sep);
      assert parts == [s[..i]] + Split(rest, sep);
      assert parts[1..] == Split(rest, sep);
      assert Join(parts, sep) == s[..i] + sep + Join(Split(rest, sep), sep);
      JoinSplit(rest, sep);
      assert s[i..i + |sep|] == sep;
      assert s == s[..i] + s[i..i + |sep|] + rest;
    }
  }

  /** A text without the separator splits into itself alone. */
  lemma SplitNoSep(s: string, sep: string)
    requires |sep| > 0 && !Contains(s, sep)
    ensures Split(s, sep) == [s]
  {
  }

  /** Splitting `a + sep + b`, where the first occurrence of the separator in
      `a + sep` is the one at its end. */
  lemma SplitFirst(a: string, sep: string, b: string)
    requires |sep| > 0 && Find(a + sep, sep) == |a|
    ensures Find(a + sep + b, sep) == |a|
    ensures Split(a + sep + b, sep) == [a] + Split(b, sep)
  {
    var s := a + sep + b;
    var w := a + sep;
    assert s[|a|..|a| + |sep|] == sep;
    assert OccursAt(s, sep, |a|);
    forall k: nat | k < |a| ensures !OccursAt(s, sep, k) {
      assert s[k..k + |sep|] == w[k..k + |sep|];
      assert !OccursAt(w, sep, k);
    }
    assert Find(s, sep) == |a|;
    assert s[|a| + |sep|..] == b;
    assert s[..|a|] == a;
  }

  /** The text before the first occurrence of `sub` does not contain it, and
      the text is that prefix, `sub` and the rest. */
  lemma FindPrefixFree(s: string, sub: string, i: int)
    requires |sub| > 0 && i == Find(s, sub) && i >= 0
    ensures i + |sub| <= |s| && s == s[..i] + sub + s[i + |sub|..]
    ensures !Contains(s[..i], sub)
  {
    assert s == s[..i] + s[i..i + |sub|] + s[i + |sub|..];
    var j := Find(s[..i], sub);
    if j >= 0 {
      assert j + |sub| <= i;
      assert s[..i][j..j + |sub|] == s[j..j + |sub|];
      assert OccursAt(s, sub, j);
      assert false;
    }
  }

  /** A one-character separator that does not occur in `a` is first found at its end. */
  lemma FindCharSep(a: string, c: char)
    requires c !in a
    ensures Find(a + [c], [c]) == |a|
  {
    var w := a + [c];
    assert w[|a|..|a| + 1] == [c];
    assert OccursAt(w, [c], |a|);
    forall k: nat | k < |a| ensures !OccursAt(w, [c], k) {
      assert w[k..k + 1] == [a[k]];
    }
  }

  /** Splitting on a one-character separator that occurs in none of the
      parts gives the parts back. */
  lemma {:induction false} SplitJoin(parts: seq<string>, c: char)
    requires |parts| >= 1
    requires forall k :: 0 <= k < |parts| ==> c !in parts[k]
    ensures Split(Join(parts, [c]), [c]) == parts
    decreases |parts|
  {
    if |parts| == 1 {
      ContainsChar(parts[0], c);
      SplitNoSep(parts[0], [c]);
    } else {
      FindCharSep(parts[0], c);
      SplitFirst(parts[0], [c], Join(parts[1..], [c]));
      SplitJoin(parts[1..], c);
    }
  }

  /** The last index of `c` in `s`, or -1 (`s.rfind(c)`). */
  function RFindChar(s: string, c: char): (r: int)
    ensures -1 <= r < |s|
    ensures r >= 0 ==> s[r] == c
    ensures forall k :: r < k < |s| ==> s[k] != c
  {
    if s == [] then -1
    else if s[|s| - 1] == c then |s| - 1
    else RFindChar(s[..|s| - 1], c)
  }

  /** `s.replace(pattern, repl)` for a non-empty `pattern`. */
  function Replace(s: string, pattern: string, repl: string): string
    requires |pattern| > 0
  {
    Join(Split(s, pattern), repl)
  }

  /** `s` with every `c` removed, the other characters in order. */
  function DropChar(s: string, c: char): (r: string)
    ensures c !in r && |r| <= |s|
    ensures forall x :: x in r <==> x in s && x != c
  {
    if s == [] then [] else (if s[0] == c then [] else [s[0]]) + DropChar(s[1..], c)
  }

  lemma {:induction false} DropCharConcat(a: string, b: string, c: char)
    ensures DropChar(a + b, c) == DropChar(a, c) + DropChar(b, c)
    decreases |a|
  {
    if a != [] {
      assert (a + b)[0] == a[0] && (a + b)[1..] == a[1..] + b;
      DropCharConcat(a[1..], b, c);
    } else {
      assert a + b == b;
    }
  }

  lemma {:induction false} DropCharAbsent(s: string, c: char)
    requires c !in s
    ensures DropChar(s, c) == s
    decreases |s|
  {
    if s != [] {
      assert s[1..] == s[|s| - |s[1..]|..];
      assert c !in s[1..];
      DropCharAbsent(s[1..], c);
    }
  }

  /** `s.replace(c, "")` removes every `c`. */
  lemma {:induction false} ReplaceDropChar(s: string, c: char)
    ensures Replace(s, [c], "") == DropChar(s, c)
    decreases |s|
  {
    var i := Find(s, [c]);
    if i < 0 {
      ContainsChar(s, c);
      DropCharAbsent(s, c);
    } else {
      var rest := s[i + 1..];
      SplitAtChar(s, c, i);
      JoinCons(s[..i], Split(rest, [c]), "");
      ReplaceDropChar(rest, c);
      DropAtChar(s, c, i);
    }
  }

  /** Every `c` in `s` replaced by `repl`, one character at a time. */
  function ReplaceChar(s: string, c: char, repl: string): string {
    if s == [] then [] else (if s[0] == c then repl else [s[0]]) + ReplaceChar(s[1..], c, repl)
  }

  lemma {:induction false} ReplaceCharConcat(a: string, b: string, c: char, repl: string)
    ensures ReplaceChar(a + b, c, repl) == ReplaceChar(a, c, repl) + ReplaceChar(b, c, repl)
    decreases |a|
  {
    if a != [] {
      assert (a + b)[0] == a[0] && (a + b)[1..] == a[1..] + b;
      ReplaceCharConcat(a[1..], b, c, repl);
    } else {
      assert a + b == b;
    }
  }

  lemma {:induction false} ReplaceCharAbsent(s: string, c: char, repl: string)
    requires c !in s
    ensures ReplaceChar(s, c, repl) == s
    decreases |s|
  {
    if s != [] {
      assert s[1..] == s[|s| - |s[1..]|..];
      assert c !in s[1..];
      ReplaceCharAbsent(s[1..], c, repl);
    }
  }

  /** `s.replace(c, repl)` for a one-character pattern works character by
      character. */
  lemma {:induction false} ReplaceByChar(s: string, c: char, repl: string)
    ensures Replace(s, [c], repl) == ReplaceChar(s, c, repl)
    decreases |s|
  {
    var i := Find(s, [c]);
    if i < 0 {
      ContainsChar(s, c);
      SplitNoSep(s, [c]);
      ReplaceCharAbsent(s, c, repl);
    } else {
      var rest := s[i + 1..];
      SplitAtChar(s, c, i);
      JoinCons(s[..i], Split(rest, [c]), repl);
      ReplaceByChar(rest, c, repl);
      ReplaceAtChar(s, c, i, repl);
    }
  }

  /** Replacing in `s` around the first occurrence `i` of `c`. */
  lemma ReplaceAtChar(s: string, c: char, i: int, repl: string)
    requires i == Find(s, [c]) && i >= 0
    ensures ReplaceChar(s, c, repl) == s[..i] + repl + ReplaceChar(s[i + 1..], c, repl)
  {
    var rest := s[i + 1..];
    FindCharFirst(s, c, i);
    assert s == s[..i] + [c] + rest;
    ReplaceCharConcat(s[..i] + [c], rest, c, repl);
    ReplaceCharConcat(s[..i], [c], c, repl);
    ReplaceCharAbsent(s[..i], c, repl);
    assert ReplaceChar([c], c, repl) == repl + ReplaceChar([], c, repl);
  }

  lemma SplitAtChar(s: string, c: char, i: int)
    requires i == Find(s, [c]) && i >= 0
    ensures Split(s, [c]) == [s[..i]] + Split(s[i + 1..], [c])
  {
  }

  lemma JoinCons(a: string, rest: seq<string>, sep: string)
    requires |rest| >= 1
    ensures Join([a] + rest, sep) == a + sep + Join(rest, sep)
  {
    assert ([a] + rest)[1..] == rest;
  }

  /** Dropping `c` from `s` around its first occurrence `i`. */
  lemma DropAtChar(s: string, c: char, i: int)
    requires i == Find(s, [c]) && i >= 0
    ensures DropChar(s, c) == s[..i] + DropChar(s[i + 1..], c)
  {
    FindCharFirst(s, c, i);
    DropCharAbsent(s[..i], c);
    DropSplit(s, c, i);
  }

  lemma FindCharFirst(s: string, c: char, i: int)
    requires i == Find(s, [c]) && i >= 0
    ensures i < |s| && s[i] == c && c !in s[..i]
  {
    forall k | 0 <= k < i ensures s[k] != c {
      assert !OccursAt(s, [c], k);
      assert s[k..k + 1] == [s[k]];
    }
    assert OccursAt(s, [c], i);
    assert s[i..i + 1] == [c];
  }

  lemma DropSplit(s: string, c: char, i: int)
    requires 0 <= i < |s| && s[i] == c
    ensures DropChar(s, c) == DropChar(s[..i], c) + DropChar(s[i + 1..], c)
  {
    assert s == s[..i] + [c] + s[i + 1..];
    DropCharConcat(s[..i] + [c], s[i + 1..], c);
    DropCharConcat(s[..i], [c], c);
  }

  /** Python's `str.isspace` on the ASCII characters. */
  predicate IsSpace(c: char) {
    c == ' ' || (9 <= c as int <= 13) || (28 <= c as int <= 31)
  }

  /** `s.rstrip()`. */
  function RStrip(s: string): (r: string)
    ensures |r| <= |s| && r == s[..|r|]
    ensures r == [] || !IsSpace(r[|r| - 1])
    ensures forall k :: |r| <= k < |s| ==> IsSpace(s[k])
  {
    if |s| > 0 && IsSpace(s[|s| - 1]) then RStrip(s[..|s| - 1]) else s
  }

  /** `s.lstrip()`. */
  function LStrip(s: string): (r: string)
    ensures |r| <= |s| && r == s[|s| - |r|..]
    ensures r == [] || !IsSpace(r[0])
    ensures forall k :: 0 <= k < |s| - |r| ==> IsSpace(s[k])
  {
    if |s| > 0 && IsSpace(s[0]) then LStrip(s[1..]) else s
  }

  /** `s.strip()`. */
  function Strip(s: string): string {
    LStrip(RStrip(s))
  }

  /** `s.split()` with no separator: the maximal runs of non-whitespace. */
  function Words(s: string): (w: seq<string>)
    ensures forall k :: 0 <= k < |w| ==> |w[k]| > 0
  {
    WordsFrom(s, 0)
  }

  /** The words of `s[i..]`. */
  function WordsFrom(s: string, i: nat): (w: seq<string>)
    requires i <= |s|
    ensures forall k :: 0 <= k < |w| ==> |w[k]| > 0
    decreases |s| - i
  {
    var j := SkipSpaces(s, i);
    if j == |s| then []
    else
      var n := WordLength(s, j);
      [s[j..n]] + WordsFrom(s, n)
  }

  /** The first position at or after `i` that is not whitespace. */
  function SkipSpaces(s: string, i: nat): (j: nat)
    requires i <= |s|
    ensures i <= j <= |s|
    ensures j < |s| ==> !IsSpace(s[j])
    ensures forall k :: i <= k < j ==> IsSpace(s[k])
    decreases |s| - i
  {
    if i == |s| || !IsSpace(s[i]) then i else SkipSpaces(s, i + 1)
  }

  /** The length of the run of non-whitespace at the start of `t[i..]`, plus `i`. */
  function WordLength(t: string, i: nat): (n: nat)
    requires i <= |t|
    ensures i <= n <= |t|
    ensures n < |t| ==> IsSpace(t[n])
    ensures forall k :: i <= k < n ==> !IsSpace(t[k])
    decreases |t| - i
  {
    if i == |t| || IsSpace(t[i]) then i else WordLength(t, i + 1)
  }

  predicate IsDigit(c: char) {
    '0' <= c <= '9'
  }

  predicate IsUpper(c: char) {
    'A' <= c <= 'Z'
  }

  function Lower(c: char): (r: char)
    ensures !IsUpper(r)
    ensures !IsUpper(c) ==> r == c
  {
    if IsUpper(c) then (c as int + 32) as char else c
  }

  function LowerString(s: string): (r: string)
    ensures |r| == |s|
    ensures forall k :: 0 <= k < |s| ==> r[k] == Lower(s[k])
  {
    if s == [] then [] else [Lower(s[0])] + LowerString(s[1..])
  }

  function DigitValue(c: char): nat
    requires IsDigit(c)
  {
    c as int - '0' as int
  }

  function DigitChar(d: nat): (c: char)
    requires d < 10
    ensures IsDigit(c) && DigitValue(c) == d
  {
    (d + '0' as int) as char
  }

  /** The number written by a run of decimal digits. */
  function DigitsValue(s: string): nat
    requires forall k :: 0 <= k < |s| ==> IsDigit(s[k])
  {
    if s == [] then 0 else DigitsValue(s[..|s| - 1]) * 10 + DigitValue(s[|s| - 1])
  }

  /** The decimal digits of `n`, with no leading zero (`str(n)`). */
  function NatToString(n: nat): (s: string)
    ensures |s| >= 1
    ensures forall k :: 0 <= k < |s| ==> IsDigit(s[k])
    ensures DigitsValue(s) == n
    decreases n
  {
    if n < 10 then [DigitChar(n)]
    else
      var s := NatToString(n / 10) + [DigitChar(n % 10)];
      assert s[..|s| - 1] == NatToString(n / 10);
      s
  }

  /** `str(x)` for an integer. */
  function IntToString(x: int): string {
    if x < 0 then "-" + NatToString(-x) else NatToString(x)
  }

  /** `int(s)` restricted to ASCII decimal literals with an optional sign
      and surrounding whitespace; `Invalid` stands for the ValueError Python
      raises, and also for the `_`-separated and non-ASCII digit forms that
      Python would accept. */
  function ParseInt(s: string): (r: ParsedInt)
  {
    var t := Strip(s);
    if |t| > 0 && (t[0] == '-' || t[0] == '+') then
      var d := t[1..];
      if |d| > 0 && forall k :: 0 <= k < |d| ==> IsDigit(d[k]) then
        ParsedInt.Int(if t[0] == '-' then -(DigitsValue(d) as int) else DigitsValue(d))
      else ParsedInt.Invalid
    else if |t| > 0 && forall k :: 0 <= k < |t| ==> IsDigit(t[k]) then
      ParsedInt.Int(DigitsValue(t))
    else ParsedInt.Invalid
  }

  datatype ParsedInt = Int(value: int) | Invalid

  lemma NoSpaceInNumber(x: int)
    ensures forall k :: 0 <= k < |IntToString(x)| ==> !IsSpace(IntToString(x)[k])
  {
  }

  lemma StripNoSpace(s: string)
    requires forall k :: 0 <= k < |s| ==> !IsSpace(s[k])
    ensures Strip(s) == s
  {
  }

  /** Reading back the text written by `str(x)` gives `x`. */
  lemma ParseIntToString(x: int)
    ensures ParseInt(IntToString(x)) == ParsedInt.Int(x)
  {
    var s := IntToString(x);
    NoSpaceInNumber(x);
    StripNoSpace(s);
    if x < 0 {
      assert s[1..] == NatToString(-x);
    }
  }
}
