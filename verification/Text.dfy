/** The few string operations the runtime relies on, over ASCII. */
module Text {
  function LowerChar(c: char): (r: char)
    ensures !('A' <= r <= 'Z')
    ensures r == c || ('A' <= c <= 'Z' && r as int - 'a' as int == c as int - 'A' as int)
  {
    if 'A' <= c <= 'Z' then (c as int + 32) as char else c
  }

  function Lower(s: string): (r: string)
    ensures |r| == |s| && forall k | 0 <= k < |s| :: r[k] == LowerChar(s[k])
  {
    seq(|s|, k requires 0 <= k < |s| => LowerChar(s[k]))
  }

  predicate IsSpace(c: char) {
    c == ' ' || '\t' <= c <= '\r' || '\U{1c}' <= c <= '\U{1f}'
  }

  function Strip(s: string): (r: string)
    ensures |r| <= |s|
    ensures s == "" || (!IsSpace(s[0]) && !IsSpace(s[|s| - 1])) ==> r == s
    decreases |s|
  {
    if s == "" then s
    else if IsSpace(s[0]) then Strip(s[1..])
    else if IsSpace(s[|s| - 1]) then Strip(s[..|s| - 1])
    else s
  }

  ghost predicate StrippedTo(s: string, i: nat, j: nat) {
    && i <= j <= |s| && (forall k | 0 <= k < i || j <= k < |s| :: IsSpace(s[k]))
    && (i < j ==> !IsSpace(s[i]) && !IsSpace(s[j - 1]))
  }

  lemma FrontGrows(c: char, s: string, i: nat, j: nat)
    requires StrippedTo(s, i, j) && IsSpace(c)
    ensures StrippedTo([c] + s, i + 1, j + 1) && ([c] + s)[i + 1..j + 1] == s[i..j]
  {
    var longer := [c] + s;
    assert forall k | 1 <= k < |longer| :: longer[k] == s[k - 1];
  }

  lemma BackGrows(s: string, c: char, i: nat, j: nat)
    requires StrippedTo(s, i, j) && IsSpace(c)
    ensures StrippedTo(s + [c], i, j) && (s + [c])[i..j] == s[i..j]
  {
    var longer := s + [c];
    assert forall k | 0 <= k < |s| :: longer[k] == s[k];
  }

  /** What is stripped are the spaces at both ends, all of them and nothing else. */
  lemma {:induction false} StripExactly(s: string) returns (i: nat, j: nat)
    ensures StrippedTo(s, i, j) && Strip(s) == s[i..j]
    decreases |s|
  {
    if s == "" {
      i, j := 0, 0;
    } else if IsSpace(s[0]) {
      var a, b := StripExactly(s[1..]);
      FrontGrows(s[0], s[1..], a, b);
      assert s == [s[0]] + s[1..];
      i, j := a + 1, b + 1;
    } else if IsSpace(s[|s| - 1]) {
      i, j := StripExactly(s[..|s| - 1]);
      BackGrows(s[..|s| - 1], s[|s| - 1], i, j);
      assert s == s[..|s| - 1] + [s[|s| - 1]];
    } else {
      i, j := 0, |s|;
    }
  }

  /** Where a character first occurs; the length if it does not. */
  function IndexOf(s: string, c: char): (k: nat)
    ensures k <= |s| && (k < |s| <==> c in s)
    ensures k < |s| ==> s[k] == c
    ensures forall j | 0 <= j < k :: s[j] != c
  {
    if s == "" then 0 else if s[0] == c then 0 else 1 + IndexOf(s[1..], c)
  }

  lemma {:induction false} IndexOfAppend(a: string, c: char, b: string)
    requires c !in a
    ensures IndexOf(a + [c] + b, c) == |a|
  {
    var s := a + [c] + b;
    assert s[|a|] == c && c in s;
    assert forall j | 0 <= j < |a| :: s[j] == a[j] && a[j] in a;
  }

  /** The parts between separators. */
  function Split(s: string, sep: char): (parts: seq<string>)
    ensures parts != []
  {
    if s == "" then [""]
    else if s[0] == sep then [""] + Split(s[1..], sep)
    else var rest := Split(s[1..], sep); [[s[0]] + rest[0]] + rest[1..]
  }

  lemma SplitCons(c: char, s: string, sep: char)
    ensures Split([c] + s, sep) ==
            if c == sep then [""] + Split(s, sep) else [[c] + Split(s, sep)[0]] + Split(s, sep)[1..]
  {
    assert ([c] + s)[1..] == s;
  }

  lemma FirstOfBoth(c: char, xs: seq<string>, ys: seq<string>)
    requires xs != []
    ensures [[c] + (xs + ys)[0]] + (xs + ys)[1..] == ([[c] + xs[0]] + xs[1..]) + ys
  {
  }

  lemma {:induction false} SplitJoin(x: string, sep: char, y: string)
    ensures Split(x + [sep] + y, sep) == Split(x, sep) + Split(y, sep)
  {
    if x == "" {
      assert x + [sep] + y == [sep] + y;
      SplitCons(sep, y, sep);
    } else {
      var c, rest := x[0], x[1..];
      assert x == [c] + rest && x + [sep] + y == [c] + (rest + [sep] + y);
      SplitJoin(rest, sep, y);
      SplitCons(c, rest, sep);
      SplitCons(c, rest + [sep] + y, sep);
      FirstOfBoth(c, Split(rest, sep), Split(y, sep));
      assert [""] + (Split(rest, sep) + Split(y, sep)) == ([""] + Split(rest, sep)) + Split(y, sep);
    }
  }

  /** A text without the separator is one part. */
  lemma {:induction false} OnePart(s: string, sep: char)
    ensures sep !in s ==> Split(s, sep) == [s]
    ensures |Split(s, sep)| == 1 <==> sep !in s
  {
    if s != "" {
      OnePart(s[1..], sep);
      assert s == [s[0]] + s[1..];
      assert sep in s <==> s[0] == sep || sep in s[1..];
    }
  }

  function Join(parts: seq<string>, sep: char): string {
    if parts == [] then "" else if |parts| == 1 then parts[0] else parts[0] + [sep] + Join(parts[1..], sep)
  }

  /** Joined parts can be told apart again, unless one holds the separator. */
  lemma {:induction false} JoinSplits(parts: seq<string>, sep: char)
    requires parts != [] && forall part | part in parts :: sep !in part
    ensures Split(Join(parts, sep), sep) == parts
  {
    OnePart(parts[0], sep);
    if |parts| > 1 {
      JoinSplits(parts[1..], sep);
      SplitJoin(parts[0], sep, Join(parts[1..], sep));
    }
  }

  /** The parts, joined, are the text again, and none holds the separator. */
  lemma {:induction false} SplitJoins(s: string, sep: char)
    ensures Join(Split(s, sep), sep) == s && forall part | part in Split(s, sep) :: sep !in part
  {
    if s != "" {
      var rest := Split(s[1..], sep);
      SplitJoins(s[1..], sep);
      assert s == [s[0]] + s[1..];
      if s[0] == sep {
        assert ([""] + rest)[1..] == rest;
      } else {
        FirstGrows(s[0], rest, sep);
      }
    }
  }

  lemma FirstGrows(c: char, parts: seq<string>, sep: char)
    requires parts != [] && c != sep && forall part | part in parts :: sep !in part
    ensures
      var longer := [[c] + parts[0]] + parts[1..];
      Join(longer, sep) == [c] + Join(parts, sep) && forall part | part in longer :: sep !in part
  {
    var longer := [[c] + parts[0]] + parts[1..];
    assert longer[1..] == parts[1..];
    forall part | part in longer ensures sep !in part {
      assert part == [c] + parts[0] || part in parts[1..];
      assert parts[0] in parts;
    }
  }
}
