/** String helpers with the behaviour of the JavaScript built-ins the source
    relies on: `trim`, `toLowerCase`, `includes`, `endsWith`, `split(/\s+/)`,
    `parseInt(s, 10)` and regex character classes. */
module Text {
  import opened Wrappers

  predicate IsDigit(c: char) { '0' <= c <= '9' }

  predicate IsAsciiLetter(c: char) { 'A' <= c <= 'Z' || 'a' <= c <= 'z' }

  /** JavaScript white space and line terminators: what `\s` matches and `trim` removes. */
  predicate IsSpace(c: char) {
    c == ' ' || c == '\t' || c == '\n' || c == '\r' || c == '\U{000B}' || c == '\U{000C}'
    || c == '\U{00A0}' || c == '\U{1680}' || ('\U{2000}' <= c <= '\U{200A}')
    || c == '\U{2028}' || c == '\U{2029}' || c == '\U{202F}' || c == '\U{205F}'
    || c == '\U{3000}' || c == '\U{FEFF}'
  }

  function Lower(c: char): char {
    if 'A' <= c <= 'Z' then (c as int + 32) as char else c
  }

  function Upper(c: char): char {
    if 'a' <= c <= 'z' then (c as int - 32) as char else c
  }

  /** `toLowerCase` on the ASCII letters. */
  function ToLower(s: string): (r: string)
    ensures |r| == |s|
    ensures forall i :: 0 <= i < |s| ==> r[i] == Lower(s[i])
  {
    seq(|s|, i requires 0 <= i < |s| => Lower(s[i]))
  }

  /** `toUpperCase` on the ASCII letters. */
  function ToUpper(s: string): (r: string)
    ensures |r| == |s|
    ensures forall i :: 0 <= i < |s| ==> r[i] == Upper(s[i])
  {
    seq(|s|, i requires 0 <= i < |s| => Upper(s[i]))
  }

  lemma ToLowerIdempotent(s: string)
    ensures ToLower(ToLower(s)) == ToLower(s)
  {
  }

  /** `trimStart`: drops the leading white space. */
  function TrimStart(s: string): (r: string)
    ensures |r| <= |s| && r == s[|s| - |r|..]
    ensures r == [] || !IsSpace(r[0])
  {
    SpanIs(s, IsSpace);
    s[Span(s, IsSpace)..]
  }

  /** Everything `TrimStart` drops is white space. */
  lemma TrimStartSpaces(s: string)
    ensures forall k :: 0 <= k < |s| - |TrimStart(s)| ==> IsSpace(s[k])
  {
    SpanIs(s, IsSpace);
  }

  /** The length of `s[..i]` once its trailing white space is dropped. */
  function TrimEndLength(s: string, i: nat): (n: nat)
    requires i <= |s|
    ensures n <= i
  {
    if i > 0 && IsSpace(s[i - 1]) then TrimEndLength(s, i - 1) else i
  }

  lemma {:induction false} TrimEndLengthIs(s: string, i: nat)
    requires i <= |s|
    ensures forall k :: TrimEndLength(s, i) <= k < i ==> IsSpace(s[k])
    ensures TrimEndLength(s, i) > 0 ==> !IsSpace(s[TrimEndLength(s, i) - 1])
  {
    if i > 0 && IsSpace(s[i - 1]) {
      TrimEndLengthIs(s, i - 1);
    }
  }

  /** `trimEnd`: drops the trailing white space. */
  function TrimEnd(s: string): (r: string)
    ensures |r| <= |s| && r == s[..|r|]
    ensures r == [] || !IsSpace(r[|r| - 1])
  {
    TrimEndLengthIs(s, |s|);
    s[..TrimEndLength(s, |s|)]
  }

  /** Everything `TrimEnd` drops is white space. */
  lemma TrimEndSpaces(s: string)
    ensures forall k :: |TrimEnd(s)| <= k < |s| ==> IsSpace(s[k])
  {
    TrimEndLengthIs(s, |s|);
  }

  /** `trim`: drops the white space at both ends and nothing else. */
  function Trim(s: string): (r: string)
    ensures r == [] || (!IsSpace(r[0]) && !IsSpace(r[|r| - 1]))
  {
    var t := TrimStart(s);
    var r := TrimEnd(t);
    assert r != [] ==> r[0] == t[0];
    r
  }

  /** The trimmed text is empty exactly when the text is all white space. */
  lemma TrimEmpty(s: string)
    ensures Trim(s) == [] <==> forall k :: 0 <= k < |s| ==> IsSpace(s[k])
  {
    var t := TrimStart(s);
    TrimStartSpaces(s);
    if Trim(s) == [] && t != [] {
      TrimEndSpaces(t);
      assert false;
    }
    if t != [] && forall k :: 0 <= k < |s| ==> IsSpace(s[k]) {
      assert false;
    }
  }

  lemma TrimNoop(s: string)
    requires s == [] || (!IsSpace(s[0]) && !IsSpace(s[|s| - 1]))
    ensures Trim(s) == s
  {
    if s != [] {
      SpanAt(s, 0, IsSpace);
      assert TrimStart(s) == s;
    }
  }

  lemma ToLowerAppend(a: string, b: string)
    ensures ToLower(a + b) == ToLower(a) + ToLower(b)
  {
    assert forall i :: 0 <= i < |a + b| ==> ToLower(a + b)[i] == (ToLower(a) + ToLower(b))[i];
  }

  lemma ToLowerNoLetters(s: string)
    requires forall k :: 0 <= k < |s| ==> !('A' <= s[k] <= 'Z')
    ensures ToLower(s) == s
  {
  }

  predicate StartsWith(s: string, prefix: string) {
    |prefix| <= |s| && s[..|prefix|] == prefix
  }

  /** `s.endsWith(suffix)`, compared from the last character backwards. */
  predicate EndsWith(s: string, suffix: string)
    decreases |suffix|
  {
    suffix == [] || (s != [] && s[|s| - 1] == suffix[|suffix| - 1] && EndsWith(s[..|s| - 1], suffix[..|suffix| - 1]))
  }

  /** The text ends with the suffix exactly when its last `|suffix|` characters are the suffix. */
  lemma {:induction false} EndsWithMeans(s: string, suffix: string)
    ensures EndsWith(s, suffix) <==> |suffix| <= |s| && s[|s| - |suffix|..] == suffix
    decreases |suffix|
  {
    if suffix != [] && s != [] {
      var s', x' := s[..|s| - 1], suffix[..|suffix| - 1];
      EndsWithMeans(s', x');
      if |suffix| <= |s| {
        assert s[|s| - |suffix|..] == s'[|s'| - |x'|..] + [s[|s| - 1]];
        assert suffix == x' + [suffix[|suffix| - 1]];
      }
    }
  }

  predicate OccursAt(s: string, sub: string, i: nat) {
    i + |sub| <= |s| && s[i..i + |sub|] == sub
  }

  /** `s.includes(sub)`. */
  predicate Contains(s: string, sub: string) {
    exists i: nat :: i <= |s| && OccursAt(s, sub, i)
  }

  /** Keeps the characters that satisfy `p`, in order (`replace(/[^…]/g, "")`). */
  function Keep(s: string, p: char -> bool): (r: string)
    ensures |r| <= |s|
  {
    if s == [] then []
    else (if p(s[0]) then [s[0]] else []) + Keep(s[1..], p)
  }

  /** What `Keep` keeps is exactly the characters of `s` that satisfy `p`. */
  lemma {:induction false} KeepMembers(s: string, p: char -> bool)
    ensures forall c :: c in Keep(s, p) <==> c in s && p(c)
  {
    if s != [] {
      KeepMembers(s[1..], p);
      assert s == [s[0]] + s[1..];
    }
  }

  lemma KeepAppend(a: string, b: string, p: char -> bool)
    ensures Keep(a + b, p) == Keep(a, p) + Keep(b, p)
  {
    if a != [] {
      assert (a + b)[1..] == a[1..] + b;
      KeepAppend(a[1..], b, p);
    } else {
      assert a + b == b;
    }
  }

  lemma {:induction false} KeepAll(s: string, p: char -> bool)
    requires forall c :: c in s ==> p(c)
    ensures Keep(s, p) == s
  {
    if s != [] {
      assert s[0] in s;
      assert forall c :: c in s[1..] ==> c in s;
      KeepAll(s[1..], p);
    }
  }

  lemma KeepNone(s: string, p: char -> bool)
    requires forall c :: c in s ==> !p(c)
    ensures Keep(s, p) == []
  {
    KeepMembers(s, p);
    if Keep(s, p) != [] {
      assert Keep(s, p)[0] in Keep(s, p);
    }
  }

  lemma KeepIdempotent(s: string, p: char -> bool)
    ensures Keep(Keep(s, p), p) == Keep(s, p)
  {
    KeepMembers(s, p);
    KeepAll(Keep(s, p), p);
  }

  /** `replace(/c/g, "")`. */
  function RemoveChar(s: string, c: char): (r: string)
    ensures |r| <= |s|
  {
    if s == [] then []
    else (if s[0] == c then [] else [s[0]]) + RemoveChar(s[1..], c)
  }

  /** `RemoveChar` drops every `c` and keeps every other character. */
  lemma {:induction false} RemoveCharMembers(s: string, c: char)
    ensures forall d :: d in RemoveChar(s, c) <==> d in s && d != c
  {
    if s != [] {
      RemoveCharMembers(s[1..], c);
      assert s == [s[0]] + s[1..];
    }
  }

  lemma {:induction false} RemoveCharAppend(a: string, b: string, c: char)
    ensures RemoveChar(a + b, c) == RemoveChar(a, c) + RemoveChar(b, c)
  {
    if a != [] {
      assert (a + b)[1..] == a[1..] + b;
      RemoveCharAppend(a[1..], b, c);
    } else {
      assert a + b == b;
    }
  }

  lemma {:induction false} RemoveCharAbsent(s: string, c: char)
    requires c !in s
    ensures RemoveChar(s, c) == s
  {
    if s != [] {
      assert c !in s[1..];
      RemoveCharAbsent(s[1..], c);
    }
  }

  /** `replace(c, d)` with a one-character pattern: only the first occurrence. */
  function ReplaceFirst(s: string, c: char, d: char): (r: string)
    ensures |r| == |s|
    ensures c !in s ==> r == s
    ensures forall x :: x in r ==> x in s || x == d
  {
    if s == [] then []
    else if s[0] == c then [d] + s[1..]
    else [s[0]] + ReplaceFirst(s[1..], c, d)
  }

  /** Only the first occurrence is replaced: the part after it is kept as is. */
  lemma {:induction false} ReplaceFirstAt(x: string, y: string, c: char, d: char)
    requires c !in x
    ensures ReplaceFirst(x + [c] + y, c, d) == x + [d] + y
  {
    if x != [] {
      assert (x + [c] + y)[1..] == x[1..] + [c] + y;
      ReplaceFirstAt(x[1..], y, c, d);
    } else {
      assert x + [c] + y == [c] + y;
    }
  }

  /** `lastIndexOf(c)`: -1 when absent. */
  function LastIndexOf(s: string, c: char): (r: int)
    ensures -1 <= r < |s|
    ensures r == -1 <==> c !in s
    ensures r >= 0 ==> s[r] == c && forall k :: r < k < |s| ==> s[k] != c
  {
    if s == [] then -1
    else if s[|s| - 1] == c then |s| - 1
    else
      var r := LastIndexOf(s[..|s| - 1], c);
      assert c in s ==> s[|s| - 1] == c || c in s[..|s| - 1] by {
        if c in s {
          var k :| 0 <= k < |s| && s[k] == c;
          if k < |s| - 1 { assert s[..|s| - 1][k] == c; }
        }
      }
      r
  }

  /** The last `c` of `x + [c] + y` when `y` has none. */
  lemma LastIndexOfSplit(x: string, y: string, c: char)
    requires c !in y
    ensures LastIndexOf(x + [c] + y, c) == |x|
  {
    var s := x + [c] + y;
    assert s[|x|] == c;
    var r := LastIndexOf(s, c);
    assert r >= |x|;
  }

  /** Length of the longest prefix of `s` whose characters satisfy `p`. */
  function Span(s: string, p: char -> bool): (n: nat)
    ensures n <= |s|
  {
    SpanFrom(s, 0, p)
  }

  /** The first position from `i` on whose character fails `p`, or `|s|`. */
  function SpanFrom(s: string, i: nat, p: char -> bool): (n: nat)
    requires i <= |s|
    ensures i <= n <= |s|
    decreases |s| - i
  {
    if i < |s| && p(s[i]) then SpanFrom(s, i + 1, p) else i
  }

  lemma {:induction false} SpanFromIs(s: string, i: nat, p: char -> bool)
    requires i <= |s|
    ensures forall k :: i <= k < SpanFrom(s, i, p) ==> p(s[k])
    ensures SpanFrom(s, i, p) < |s| ==> !p(s[SpanFrom(s, i, p)])
    decreases |s| - i
  {
    if i < |s| && p(s[i]) {
      SpanFromIs(s, i + 1, p);
    }
  }

  /** The span is a run of characters satisfying `p`, stopped by one that fails it. */
  lemma SpanIs(s: string, p: char -> bool)
    ensures forall k :: 0 <= k < Span(s, p) ==> p(s[k])
    ensures Span(s, p) < |s| ==> !p(s[Span(s, p)])
  {
    SpanFromIs(s, 0, p);
  }

  lemma {:induction false} SpanFromAt(s: string, i: nat, n: nat, p: char -> bool)
    requires i <= n <= |s|
    requires forall k :: i <= k < n ==> p(s[k])
    requires n < |s| ==> !p(s[n])
    ensures SpanFrom(s, i, p) == n
    decreases n - i
  {
    if i < n {
      SpanFromAt(s, i + 1, n, p);
    }
  }

  /** The span is the first position that fails `p`. */
  lemma SpanAt(s: string, n: nat, p: char -> bool)
    requires n <= |s|
    requires forall k :: 0 <= k < n ==> p(s[k])
    requires n < |s| ==> !p(s[n])
    ensures Span(s, p) == n
  {
    SpanFromAt(s, 0, n, p);
  }

  predicate AllDigits(s: string) {
    forall k :: 0 <= k < |s| ==> IsDigit(s[k])
  }

  function DigitValue(c: char): nat
    requires IsDigit(c)
  {
    c as int - '0' as int
  }

  function Pow10(n: nat): (r: nat)
    ensures r >= 1
  {
    if n == 0 then 1 else 10 * Pow10(n - 1)
  }

  /** Decimal value of a string of digits. */
  function DigitsValue(s: string): (v: nat)
    requires AllDigits(s)
    ensures v < Pow10(|s|)
  {
    if s == [] then 0 else 10 * DigitsValue(s[..|s| - 1]) + DigitValue(s[|s| - 1])
  }

  lemma DigitsValueAppend(a: string, b: string)
    requires AllDigits(a) && AllDigits(b)
    ensures AllDigits(a + b)
    ensures DigitsValue(a + b) == DigitsValue(a) * Pow10(|b|) + DigitsValue(b)
  {
    if b != [] {
      var b' := b[..|b| - 1];
      assert (a + b)[..|a + b| - 1] == a + b';
      DigitsValueAppend(a, b');
      var x, y, d := DigitsValue(a), DigitsValue(b'), DigitValue(b[|b| - 1]);
      var q := Pow10(|b'|);
      assert AllDigits(a + b);
      assert DigitsValue(a + b) == 10 * DigitsValue(a + b') + d;
      assert DigitsValue(b) == 10 * y + d;
      assert Pow10(|b|) == 10 * q;
      ShiftDigit(x, q, y, d);
    } else {
      assert a + b == a;
    }
  }

  lemma ShiftDigit(x: int, q: int, y: int, d: int)
    ensures 10 * (x * q + y) + d == x * (10 * q) + (10 * y + d)
  {
  }

  /** The decimal numeral of `n`, without leading zeros. */
  function NatToString(n: nat): (r: string)
    ensures r != [] && AllDigits(r)
    ensures DigitsValue(r) == n
    ensures n < 10 ==> |r| == 1
    ensures n < 100 ==> |r| <= 2
  {
    var d := ['0' + ((n % 10) as char)];
    assert DigitsValue(d) == n % 10 by { assert d[..0] == []; }
    if n < 10 then d
    else
      var prefix := NatToString(n / 10);
      DigitsValueAppend(prefix, d);
      prefix + d
  }

  /** `parseInt(s, 10)`: leading white space, an optional sign, then the longest
      run of digits; `None` (NaN) when there is no digit. */
  function ParseIntPrefix(s: string): (r: Option<int>)
  {
    var t := TrimStart(s);
    var neg := t != [] && t[0] == '-';
    var body := if t != [] && (t[0] == '-' || t[0] == '+') then t[1..] else t;
    var n := Span(body, IsDigit);
    if n == 0 then None
    else
      SpanIs(body, IsDigit);
      var v: int := DigitsValue(body[..n]);
      Some(if neg then -v else v)
  }

  /** `parseInt` yields a number only from text that holds a digit. */
  lemma ParseIntHasDigit(s: string)
    requires ParseIntPrefix(s).Some?
    ensures exists k :: 0 <= k < |s| && IsDigit(s[k])
  {
    var t := TrimStart(s);
    var body := if t != [] && (t[0] == '-' || t[0] == '+') then t[1..] else t;
    SpanIs(body, IsDigit);
    assert IsDigit(body[0]);
    var k := |s| - |body|;
    assert body == s[k..];
    assert s[k] == body[0];
  }

  lemma ParseIntOfDigits(s: string)
    requires s != [] && AllDigits(s)
    ensures ParseIntPrefix(s) == Some(DigitsValue(s))
  {
    assert !IsSpace(s[0]);
    SpanAt(s, 0, IsSpace);
    assert TrimStart(s) == s;
    SpanAt(s, |s|, IsDigit);
    assert s[..|s|] == s;
  }

  predicate NotSpace(c: char) { !IsSpace(c) }

  predicate NoSpace(s: string) {
    forall k :: 0 <= k < |s| ==> !IsSpace(s[k])
  }

  /** `split(/\s+/)`: every maximal run of white space separates two fields;
      a leading or trailing run yields an empty field, and "" yields [""]. */
  function SplitOnSpaces(s: string): (parts: seq<string>)
    ensures |parts| >= 1
    decreases |s|
  {
    var n := Span(s, NotSpace);
    if n == |s| then [s]
    else
      SpanIs(s, NotSpace);
      SpanIs(s[n..], IsSpace);
      var w := Span(s[n..], IsSpace);
      [s[..n]] + SplitOnSpaces(s[n + w..])
  }

  lemma SplitNoSpace(s: string)
    requires NoSpace(s)
    ensures SplitOnSpaces(s) == [s]
  {
    SpanAt(s, |s|, NotSpace);
  }

  /** One step of the split: the first field, then the split of what follows
      the run of white space after it. */
  lemma SplitUnfold(s: string, n: nat, w: nat)
    requires n < |s| && Span(s, NotSpace) == n && Span(s[n..], IsSpace) == w
    ensures SplitOnSpaces(s) == [s[..n]] + SplitOnSpaces(s[n + w..])
  {
  }

  /** A field without white space, one separating space, then the rest. */
  lemma SplitCons(a: string, rest: string)
    requires a != [] && NoSpace(a)
    requires rest == [] || !IsSpace(rest[0])
    ensures SplitOnSpaces(a + " " + rest) == [a] + SplitOnSpaces(rest)
  {
    var s := a + " " + rest;
    assert s[|a|] == ' ';
    assert forall k :: 0 <= k < |a| ==> s[k] == a[k];
    SpanAt(s, |a|, NotSpace);
    assert s[|a|..] == " " + rest;
    SpanAt(s[|a|..], 1, IsSpace);
    SplitUnfold(s, |a|, 1);
    assert s[..|a|] == a;
    assert s[|a| + 1..] == rest;
  }

  /** `arr.join("")`. */
  function Concat(parts: seq<string>): string {
    if parts == [] then [] else parts[0] + Concat(parts[1..])
  }
}
