/** How the snapshot editor cleans what is typed into an amount field: everything
    but digits and dots is dropped, and only the first dot survives. */
module NumericInput {
  import opened Text

  predicate IsNumericChar(c: char) { IsDigit(c) || c == '.' }

  /** The index of the first dot, or the length when there is none. */
  function FirstDot(s: string): (n: nat)
    ensures n <= |s|
  {
    DotFrom(s, 0)
  }

  /** The index of the first dot at `i` or after, or the length. */
  function DotFrom(s: string, i: nat): (n: nat)
    requires i <= |s|
    ensures i <= n <= |s|
    decreases |s| - i
  {
    if i == |s| || s[i] == '.' then i else DotFrom(s, i + 1)
  }

  /** No dot comes before `FirstDot`, and a dot stands there unless it is the end. */
  lemma FirstDotIsFirst(s: string)
    ensures forall k :: 0 <= k < FirstDot(s) ==> s[k] != '.'
    ensures FirstDot(s) < |s| ==> s[FirstDot(s)] == '.'
  {
    DotFromIsFirst(s, 0);
  }

  lemma {:induction false} DotFromIsFirst(s: string, i: nat)
    requires i <= |s|
    ensures forall k :: i <= k < DotFrom(s, i) ==> s[k] != '.'
    ensures DotFrom(s, i) < |s| ==> s[DotFrom(s, i)] == '.'
    decreases |s| - i
  {
    if i < |s| && s[i] != '.' {
      DotFromIsFirst(s, i + 1);
    }
  }

  /** A dot with none before it is the first dot. */
  lemma FirstDotAt(s: string, n: nat)
    requires n < |s| && s[n] == '.'
    requires forall k :: 0 <= k < n ==> s[k] != '.'
    ensures FirstDot(s) == n
  {
    DotFromAt(s, 0, n);
  }

  lemma {:induction false} DotFromAt(s: string, i: nat, n: nat)
    requires i <= n < |s| && s[n] == '.'
    requires forall k :: i <= k < n ==> s[k] != '.'
    ensures DotFrom(s, i) == n
    decreases n - i
  {
    if i < n {
      DotFromAt(s, i + 1, n);
    }
  }

  /** `s.split(".")`: the pieces between dots, one more than there are dots. */
  function SplitDots(s: string): (parts: seq<string>)
    ensures |parts| >= 1
    ensures |parts| == 1 <==> '.' !in s
    decreases |s|
  {
    var n := FirstDot(s);
    FirstDotIsFirst(s);
    if n == |s| then [s]
    else [s[..n]] + SplitDots(s[n + 1..])
  }

  /** `parts.join(".")`. */
  function JoinDots(parts: seq<string>): string
    requires |parts| >= 1
  {
    if |parts| == 1 then parts[0] else parts[0] + "." + JoinDots(parts[1..])
  }

  /** Splitting at the dots and joining with dots gives the text back. */
  lemma {:induction false} SplitJoin(s: string)
    ensures JoinDots(SplitDots(s)) == s
    decreases |s|
  {
    var n := FirstDot(s);
    if n < |s| {
      var head, tail := s[..n], s[n + 1..];
      var parts := SplitDots(tail);
      SplitJoin(tail);
      JoinDotsCons(head, parts);
      FirstDotIsFirst(s);
      DotSplit(s, n);
      assert JoinDots(SplitDots(s)) == head + "." + tail;
    }
  }

  /** Joining a piece in front of others puts a dot between them. */
  lemma JoinDotsCons(head: string, parts: seq<string>)
    requires |parts| >= 1
    ensures JoinDots([head] + parts) == head + "." + JoinDots(parts)
  {
    assert ([head] + parts)[1..] == parts;
  }

  /** A text with a dot at `n` is what comes before it, the dot and the rest. */
  lemma DotSplit(s: string, n: nat)
    requires n < |s| && s[n] == '.'
    ensures s == s[..n] + "." + s[n + 1..]
  {
    assert s[n..] == "." + s[n + 1..];
    assert s == s[..n] + s[n..];
  }

  /** `parts.join("")` of the pieces is the text without its dots. */
  lemma {:induction false} ConcatSplit(s: string)
    ensures Concat(SplitDots(s)) == RemoveChar(s, '.')
    decreases |s|
  {
    var n := FirstDot(s);
    if n == |s| {
      assert SplitDots(s) == [s];
      assert Concat([s]) == s + Concat([]);
      RemoveCharAbsent(s, '.');
    } else {
      var head, tail := s[..n], s[n + 1..];
      ConcatSplit(tail);
      FirstDotIsFirst(s);
      RemoveAtFirst(s, n, '.');
      ConcatCons(head, SplitDots(tail));
    }
  }

  lemma ConcatCons(head: string, parts: seq<string>)
    ensures Concat([head] + parts) == head + Concat(parts)
  {
    assert ([head] + parts)[1..] == parts;
  }

  /** Removing `c` from a text whose first `c` stands at `n` keeps what comes
      before it and removes `c` from what comes after. */
  lemma {:induction false} RemoveAtFirst(s: string, n: nat, c: char)
    requires n < |s| && s[n] == c
    requires forall k :: 0 <= k < n ==> s[k] != c
    ensures RemoveChar(s, c) == s[..n] + RemoveChar(s[n + 1..], c)
    decreases n
  {
    var t := s[1..];
    if n == 0 {
      assert RemoveChar(s, c) == [] + RemoveChar(t, c);
    } else {
      assert t[n - 1] == c;
      RemoveAtFirst(t, n - 1, c);
      assert t[n..] == s[n + 1..];
      assert RemoveChar(s, c) == [s[0]] + RemoveChar(t, c);
      assert s[..n] == [s[0]] + t[..n - 1];
    }
  }

  /** `parseNumericInput(value)`: drop all but digits and dots, then, when there
      are two dots or more, join the pieces after the first dot without dots. */
  function ParseNumericInput(value: string): string {
    OneDot(Keep(value, IsNumericChar))
  }

  function OneDot(cleaned: string): string {
    var parts := SplitDots(cleaned);
    if |parts| > 2 then parts[0] + "." + Concat(parts[1..]) else cleaned
  }

  /** The reference reading: the text up to and including its first dot as is,
      then the rest with its dots removed. */
  function KeepFirstDot(s: string): string {
    var n := FirstDot(s);
    if n == |s| then s else s[..n + 1] + RemoveChar(s[n + 1..], '.')
  }

  /** The split-and-join of the source removes every dot after the first. */
  lemma OneDotSpec(c: string)
    ensures OneDot(c) == KeepFirstDot(c)
  {
    var n := FirstDot(c);
    FirstDotIsFirst(c);
    if n < |c| {
      var head, tail := c[..n], c[n + 1..];
      var parts := SplitDots(c);
      assert parts == [head] + SplitDots(tail);
      assert parts[1..] == SplitDots(tail);
      DotSplit(c, n);
      assert c[..n + 1] == head + "." by {
        assert c == head + ("." + tail);
      }
      if |parts| > 2 {
        ConcatSplit(tail);
      } else {
        RemoveCharAbsent(tail, '.');
      }
    }
  }

  /** What comes out holds only digits and at most one dot, and everything up to
      the first dot of the cleaned text is kept. */
  lemma ParseNumericInputShape(value: string)
    ensures var r := ParseNumericInput(value);
      (forall k :: 0 <= k < |r| ==> IsNumericChar(r[k]))
      && (forall i, j :: 0 <= i < j < |r| && r[i] == '.' ==> r[j] != '.')
      && var c := Keep(value, IsNumericChar);
         var n := FirstDot(c);
         r[..if n < |c| then n + 1 else n] == c[..if n < |c| then n + 1 else n]
  {
    OneDotSpec(Keep(value, IsNumericChar));
    var c := Keep(value, IsNumericChar);
    var r := ParseNumericInput(value);
    var n := FirstDot(c);
    FirstDotIsFirst(c);
    KeepMembers(value, IsNumericChar);
    if n < |c| {
      RemoveCharMembers(c[n + 1..], '.');
    }
    forall k | 0 <= k < |r| ensures IsNumericChar(r[k]) {
      assert r[k] in r;
      if n < |c| && k > n {
        assert r[k] in RemoveChar(c[n + 1..], '.');
        assert r[k] in c[n + 1..];
      }
      assert r[k] in c;
    }
    forall i, j | 0 <= i < j < |r| && r[i] == '.' ensures r[j] != '.' {
      if n < |c| {
        if j > n {
          assert r[j] in RemoveChar(c[n + 1..], '.');
        }
      }
    }
  }

  /** Cleaning cleaned input changes nothing. */
  lemma ParseNumericInputIdempotent(value: string)
    ensures ParseNumericInput(ParseNumericInput(value)) == ParseNumericInput(value)
  {
    var c := Keep(value, IsNumericChar);
    var r := ParseNumericInput(value);
    ParseNumericInputShape(value);
    assert forall ch :: ch in r ==> IsNumericChar(ch);
    KeepAll(r, IsNumericChar);
    OneDotSpec(c);
    OneDotSpec(r);
    KeepFirstDotIdempotent(c);
  }

  /** Keeping the first dot of a text that already has at most one changes nothing. */
  lemma KeepFirstDotIdempotent(s: string)
    ensures KeepFirstDot(KeepFirstDot(s)) == KeepFirstDot(s)
  {
    var n := FirstDot(s);
    FirstDotIsFirst(s);
    if n < |s| {
      var rest := RemoveChar(s[n + 1..], '.');
      RemoveCharMembers(s[n + 1..], '.');
      RemoveCharAbsent(rest, '.');
      KeepDotAt(s[..n + 1], rest, n);
    }
  }

  /** A text whose only dot ends `head` is kept as it is. */
  lemma KeepDotAt(head: string, rest: string, n: nat)
    requires |head| == n + 1 && head[n] == '.'
    requires forall k :: 0 <= k < n ==> head[k] != '.'
    requires RemoveChar(rest, '.') == rest
    ensures KeepFirstDot(head + rest) == head + rest
  {
    var r := head + rest;
    assert r[..n + 1] == head && r[n + 1..] == rest;
    FirstDotAt(r, n);
  }
}
