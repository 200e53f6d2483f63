/**
 * String primitives of the JavaScript runtime that the application relies on:
 * `split`/`join` on one separator character, `trim`, `toLowerCase`, `includes`,
 * `indexOf` and `replace` with a string pattern.  Strings are sequences of
 * Unicode scalar values.
 */
module Strings {
  import opened Wrappers

  // ---------------------------------------------------------------------------
  // split / join on a single separator character
  // ---------------------------------------------------------------------------

  /** Number of occurrences of `c` in `s`. */
  function Count(s: string, c: char): nat
  {
    if s == [] then 0 else (if s[0] == c then 1 else 0) + Count(s[1..], c)
  }

  lemma {:induction false} CountAppend(a: string, b: string, c: char)
    ensures Count(a + b, c) == Count(a, c) + Count(b, c)
  {
    if a != [] {
      assert (a + b)[0] == a[0];
      assert (a + b)[1..] == a[1..] + b;
      assert Count(a + b, c) == (if a[0] == c then 1 else 0) + Count(a[1..] + b, c);
      CountAppend(a[1..], b, c);
    } else {
      assert a + b == b;
    }
  }

  lemma {:induction false} CountAbsent(s: string, c: char)
    ensures Count(s, c) == 0 <==> c !in s
  {
    if s != [] {
      CountAbsent(s[1..], c);
      assert s == [s[0]] + s[1..];
    }
  }

  /** `parts.join(sep)`. */
  function Join(parts: seq<string>, sep: char): string
  {
    if |parts| == 0 then ""
    else if |parts| == 1 then parts[0]
    else parts[0] + [sep] + Join(parts[1..], sep)
  }

  /**
   * `s.split(sep)` for a one-character separator: the maximal separator-free
   * pieces of `s`, always at least one (the empty string splits into `[""]`).
   */
  function Split(s: string, sep: char): (parts: seq<string>)
    ensures |parts| >= 1
    ensures forall k :: 0 <= k < |parts| ==> sep !in parts[k]
    ensures Join(parts, sep) == s
    decreases |s|
  {
    if |s| == 0 then [""]
    else if s[0] == sep then
      var rest := Split(s[1..], sep);
      assert s == [sep] + s[1..];
      [""] + rest
    else
      var rest := Split(s[1..], sep);
      assert s == [s[0]] + s[1..];
      [[s[0]] + rest[0]] + rest[1..]
  }

  /** There is one more piece than there are separators. */
  lemma {:induction false} SplitCount(s: string, sep: char)
    ensures |Split(s, sep)| == Count(s, sep) + 1
    decreases |s|
  {
    if |s| > 0 {
      SplitCount(s[1..], sep);
    }
  }

  /** Splitting inverts joining, as long as no piece holds the separator. */
  lemma {:induction false} SplitJoin(parts: seq<string>, sep: char)
    requires |parts| >= 1
    requires forall k :: 0 <= k < |parts| ==> sep !in parts[k]
    ensures Split(Join(parts, sep), sep) == parts
    decreases |parts|, |parts[0]|
  {
    if |parts[0]| == 0 {
      if |parts| > 1 {
        var j := Join(parts, sep);
        assert j == [sep] + Join(parts[1..], sep);
        assert j[1..] == Join(parts[1..], sep);
        SplitJoin(parts[1..], sep);
      }
    } else {
      var p0 := parts[0];
      var tail := [p0[1..]] + parts[1..];
      var j := Join(parts, sep);
      assert Join(tail, sep) == j[1..] by {
        if |parts| == 1 {
        } else {
          assert tail[1..] == parts[1..];
        }
      }
      assert j[0] == p0[0];
      SplitJoin(tail, sep);
      assert Split(j, sep) == [[p0[0]] + p0[1..]] + tail[1..];
      assert [p0[0]] + p0[1..] == p0;
      assert tail[1..] == parts[1..];
    }
  }

  lemma {:induction false} JoinAppend(parts: seq<string>, last: string, sep: char)
    requires |parts| >= 1
    ensures Join(parts + [last], sep) == Join(parts, sep) + [sep] + last
    decreases |parts|
  {
    if |parts| == 1 {
      assert parts + [last] == [parts[0], last];
    } else {
      assert (parts + [last])[1..] == parts[1..] + [last];
      JoinAppend(parts[1..], last, sep);
    }
  }

  // ---------------------------------------------------------------------------
  // trim
  // ---------------------------------------------------------------------------

  /** The white space and line terminators that `String.prototype.trim` removes. */
  predicate IsWhitespace(c: char)
  {
    c == ' ' || c == '\t' || c == '\n' || c == '\r' || c == '\U{000B}' || c == '\U{000C}'
    || c == '\U{00A0}' || c == '\U{1680}' || ('\U{2000}' <= c <= '\U{200A}')
    || c == '\U{2028}' || c == '\U{2029}' || c == '\U{202F}' || c == '\U{205F}'
    || c == '\U{3000}' || c == '\U{FEFF}'
  }

  function TrimStart(s: string): (r: string)
    ensures |r| <= |s| && r == s[|s| - |r|..]
    ensures r != [] ==> !IsWhitespace(r[0])
    ensures forall i :: 0 <= i < |s| - |r| ==> IsWhitespace(s[i])
  {
    if s != [] && IsWhitespace(s[0]) then TrimStart(s[1..]) else s
  }

  function TrimEnd(s: string): (r: string)
    ensures |r| <= |s| && r == s[..|r|]
    ensures r != [] ==> !IsWhitespace(r[|r| - 1])
    ensures forall i :: |r| <= i < |s| ==> IsWhitespace(s[i])
  {
    if s != [] && IsWhitespace(s[|s| - 1]) then TrimEnd(s[..|s| - 1]) else s
  }

  /** `s.trim()`: `s` without its leading and trailing white space. */
  function Trim(s: string): (r: string)
  {
    TrimEnd(TrimStart(s))
  }

  /** `!s.trim()`: the text is empty or white space only. */
  predicate IsBlank(s: string)
  {
    Trim(s) == ""
  }

  /** A text is blank exactly when every character of it is white space. */
  lemma BlankIffAllWhitespace(s: string)
    ensures IsBlank(s) <==> forall i :: 0 <= i < |s| ==> IsWhitespace(s[i])
  {
    var t := TrimStart(s);
    var r := TrimEnd(t);
    assert t != [] ==> t[0] == s[|s| - |t|];
    forall i | 0 <= i < |s| ensures r == [] ==> IsWhitespace(s[i]) {
      if i >= |s| - |t| {
        assert s[i] == t[i - (|s| - |t|)];
      }
    }
  }

  /** The trimmed text neither starts nor ends with white space, and lies inside the input. */
  lemma TrimProperties(s: string)
    ensures var r := Trim(s);
      (r != [] ==> !IsWhitespace(r[0]) && !IsWhitespace(r[|r| - 1]))
      && OccursAt(s, r, |s| - |TrimStart(s)|)
  {
    TrimEdges(TrimStart(s));
    TrimInside(s);
  }

  lemma TrimEdges(t: string)
    requires t != [] ==> !IsWhitespace(t[0])
    ensures var r := TrimEnd(t);
      r != [] ==> !IsWhitespace(r[0]) && !IsWhitespace(r[|r| - 1])
  {
    var r := TrimEnd(t);
    if r != [] {
      assert r[0] == t[..|r|][0] == t[0];
    }
  }

  lemma TrimInside(s: string)
    ensures OccursAt(s, Trim(s), |s| - |TrimStart(s)|)
  {
    InnerOccurs(s, TrimStart(s), Trim(s));
  }

  /** A prefix of a suffix occurs where the suffix starts. */
  lemma InnerOccurs(s: string, t: string, r: string)
    requires |t| <= |s| && t == s[|s| - |t|..]
    requires |r| <= |t| && r == t[..|r|]
    ensures OccursAt(s, r, |s| - |t|)
  {
    var i := |s| - |t|;
    assert s[i..][..|r|] == s[i..i + |r|];
  }

  // ---------------------------------------------------------------------------
  // toLowerCase
  // ---------------------------------------------------------------------------

  /** The case mapping of `toLowerCase` on Basic Latin and Latin-1 letters. */
  function LowerChar(c: char): (d: char)
  {
    if 'A' <= c <= 'Z' || ('\U{00C0}' <= c <= '\U{00DE}' && c != '\U{00D7}')
    then (c as int + 32) as char
    else c
  }

  /** `s.toLowerCase()`, character by character. */
  function Lower(s: string): (r: string)
    ensures |r| == |s|
    ensures forall i :: 0 <= i < |s| ==> r[i] == LowerChar(s[i])
  {
    seq(|s|, i requires 0 <= i < |s| => LowerChar(s[i]))
  }

  /** Lower-casing a lower-cased text changes nothing. */
  lemma LowerIdempotent(s: string)
    ensures Lower(Lower(s)) == Lower(s)
  {
    forall i | 0 <= i < |s| ensures LowerChar(LowerChar(s[i])) == LowerChar(s[i]) {
    }
  }

  // ---------------------------------------------------------------------------
  // indexOf / includes / replace
  // ---------------------------------------------------------------------------

  predicate OccursAt(s: string, sub: string, i: nat)
  {
    i + |sub| <= |s| && s[i..i + |sub|] == sub
  }

  /** `s.indexOf(sub, from)`: the leftmost occurrence of `sub` at or after `from`. */
  function IndexOfFrom(s: string, sub: string, from: nat): (r: Option<nat>)
    ensures r.Some? ==> from <= r.value && OccursAt(s, sub, r.value)
    ensures r.Some? ==> forall j :: from <= j < r.value ==> !OccursAt(s, sub, j)
    ensures r.None? ==> forall j :: from <= j ==> !OccursAt(s, sub, j)
    decreases |s| - from
  {
    if from + |sub| > |s| then None
    else if s[from..from + |sub|] == sub then Some(from)
    else IndexOfFrom(s, sub, from + 1)
  }

  function IndexOf(s: string, sub: string): (r: Option<nat>)
  {
    IndexOfFrom(s, sub, 0)
  }

  /** `s.includes(sub)`. */
  predicate Contains(s: string, sub: string)
  {
    IndexOf(s, sub).Some?
  }

  /** `includes` holds exactly when some position of `s` starts a copy of `sub`. */
  lemma ContainsIff(s: string, sub: string)
    ensures Contains(s, sub) <==> exists i: nat :: OccursAt(s, sub, i)
  {
    if Contains(s, sub) {
      assert OccursAt(s, sub, IndexOf(s, sub).value);
    }
  }

  /**
   * The replacement text of `String.prototype.replace` with a string pattern:
   * `$$` stands for `$`, `$&` for the matched text, `` $` `` for the text before
   * the match and `$'` for the text after it; any other `$` is literal.
   */
  function ExpandReplacement(repl: string, matched: string, before: string, after: string): (r: string)
    decreases |repl|
  {
    if repl == [] then []
    else if repl[0] == '$' && |repl| >= 2 then
      var c := repl[1];
      if c == '$' then "$" + ExpandReplacement(repl[2..], matched, before, after)
      else if c == '&' then matched + ExpandReplacement(repl[2..], matched, before, after)
      else if c == '`' then before + ExpandReplacement(repl[2..], matched, before, after)
      else if c == '\'' then after + ExpandReplacement(repl[2..], matched, before, after)
      else "$" + ExpandReplacement(repl[1..], matched, before, after)
    else [repl[0]] + ExpandReplacement(repl[1..], matched, before, after)
  }

  /** A replacement text without `$` is inserted as it is. */
  lemma {:induction false} ExpandPlain(repl: string, matched: string, before: string, after: string)
    requires '$' !in repl
    ensures ExpandReplacement(repl, matched, before, after) == repl
    decreases |repl|
  {
    if repl != [] {
      ExpandPlain(repl[1..], matched, before, after);
      assert repl == [repl[0]] + repl[1..];
    }
  }

  /** `s.replace(pat, repl)`: only the first occurrence of `pat` is replaced. */
  function ReplaceFirst(s: string, pat: string, repl: string): (r: string)
  {
    match IndexOf(s, pat)
    case None => s
    case Some(i) =>
      s[..i] + ExpandReplacement(repl, pat, s[..i], s[i + |pat|..]) + s[i + |pat|..]
  }

  /** When `s` starts with `pat`, `replace` swaps that prefix for a `$`-free replacement. */
  lemma ReplacePrefix(s: string, pat: string, repl: string)
    requires |pat| <= |s| && s[..|pat|] == pat
    requires '$' !in repl
    ensures ReplaceFirst(s, pat, repl) == repl + s[|pat|..]
  {
    assert OccursAt(s, pat, 0);
    assert IndexOf(s, pat) == Some(0);
    ExpandPlain(repl, pat, s[..0], s[|pat|..]);
  }
}
