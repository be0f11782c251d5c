/** The Python `str` operations the crawler and the claim filters rely on:
    `startswith`, `in`, `split(sep)`, `sep.join`, `replace(old, "")`, `strip()`
    and `lower()`, each defined over `seq<char>` with the properties the rest of
    the model uses. */
module Strings {
  import opened Wrappers

  predicate StartsWith(s: string, prefix: string) {
    |prefix| <= |s| && s[..|prefix|] == prefix
  }

  predicate EndsWith(s: string, suffix: string) {
    |suffix| <= |s| && s[|s| - |suffix|..] == suffix
  }

  /** `pat` occurs in `s` at position `i`. */
  predicate OccursAt(s: string, pat: string, i: int) {
    0 <= i && i + |pat| <= |s| && s[i..i + |pat|] == pat
  }

  /** Python `s.find(pat)`, with `None` for -1: the first position at which `pat` occurs. */
  function Find(s: string, pat: string): (r: Option<nat>)
    ensures r.Some? ==> OccursAt(s, pat, r.value)
    ensures r.Some? ==> forall j :: 0 <= j < r.value ==> !OccursAt(s, pat, j)
    ensures r.None? ==> forall j :: !OccursAt(s, pat, j)
    decreases |s|
  {
    if |s| < |pat| then None
    else if StartsWith(s, pat) then Some(0)
    else
      var rest := Find(s[1..], pat);
      assert forall j :: 1 <= j ==> (OccursAt(s, pat, j) <==> OccursAt(s[1..], pat, j - 1)) by {
        forall j | 1 <= j
          ensures OccursAt(s, pat, j) <==> OccursAt(s[1..], pat, j - 1)
        {
          OccursInTail(s, pat, j);
        }
      }
      match rest
      case None => None
      case Some(i) => Some(i + 1)
  }

  /** An occurrence past the first character is an occurrence in the tail. */
  lemma OccursInTail(s: string, pat: string, j: int)
    requires |s| >= 1 && j >= 1
    ensures OccursAt(s, pat, j) <==> OccursAt(s[1..], pat, j - 1)
  {
    if j + |pat| <= |s| {
      var here := s[j..j + |pat|];
      var there := s[1..][j - 1..j - 1 + |pat|];
      assert forall k :: 0 <= k < |pat| ==> here[k] == there[k];
      assert here == there;
    }
  }

  /** A prefix of a string is a prefix of any extension of it. */
  lemma StartsWithExtend(a: string, b: string, prefix: string)
    requires StartsWith(a, prefix)
    ensures StartsWith(a + b, prefix)
  {
    assert (a + b)[..|prefix|] == a[..|prefix|];
  }

  /** A suffix of a string is a suffix of anything that ends with that string. */
  lemma EndsWithExtend(a: string, b: string, suffix: string)
    requires EndsWith(b, suffix)
    ensures EndsWith(a + b, suffix)
  {
    assert (a + b)[|a + b| - |suffix|..] == b[|b| - |suffix|..];
  }

  /** The middle piece of a concatenation occurs in it, right after the first piece. */
  lemma OccursInMiddle(a: string, b: string, c: string)
    ensures OccursAt(a + b + c, b, |a|)
  {
    assert (a + b + c)[|a|..|a| + |b|] == b;
  }

  /** Two prefixes that differ in their first character cannot both open a text. */
  lemma FirstCharExcludes(s: string, p: string, q: string)
    requires p != [] && q != [] && p[0] != q[0] && StartsWith(s, p)
    ensures !StartsWith(s, q)
  {
    assert s[..|p|][0] == s[0];
    if |q| <= |s| {
      assert s[..|q|][0] == s[0];
    }
  }

  /** Python `pat in s`. */
  predicate Contains(s: string, pat: string) {
    Find(s, pat).Some?
  }

  /** The first occurrence is the one `Find` reports. */
  lemma FindFirst(s: string, pat: string, i: nat)
    requires OccursAt(s, pat, i)
    requires forall j :: 0 <= j < i ==> !OccursAt(s, pat, j)
    ensures Find(s, pat) == Some(i)
  {
  }

  /** The text before the first occurrence of `pat`, or all of `s` when there is none. */
  function UpToFirst(s: string, pat: string): (r: string)
    requires pat != []
    ensures StartsWith(s, r)
    ensures |r| < |s| ==> OccursAt(s, pat, |r|)
    ensures |r| == |s| <==> !Contains(s, pat)
  {
    match Find(s, pat)
    case None => s
    case Some(i) => s[..i]
  }

  /** Python `s.split(sep)` for a non-empty separator. */
  function Split(s: string, sep: string): (parts: seq<string>)
    requires sep != []
    ensures |parts| >= 1
    decreases |s|
  {
    match Find(s, sep)
    case None => [s]
    case Some(i) => [s[..i]] + Split(s[i + |sep|..], sep)
  }

  /** A text that opens with the separator splits into an empty first piece and more. */
  lemma SplitLeading(s: string, sep: string)
    requires sep != [] && StartsWith(s, sep)
    ensures |Split(s, sep)| >= 2 && Split(s, sep)[0] == []
  {
    assert OccursAt(s, sep, 0);
    FindFirst(s, sep, 0);
    SplitAt(s, sep, 0);
  }

  /** A split at the first separator. */
  lemma SplitAt(s: string, sep: string, i: nat)
    requires sep != [] && Find(s, sep) == Some(i)
    ensures Split(s, sep) == [s[..i]] + Split(s[i + |sep|..], sep)
  {
  }

  /** The first piece of a split is the text before the first separator. */
  lemma SplitFirst(s: string, sep: string)
    requires sep != []
    ensures Split(s, sep)[0] == UpToFirst(s, sep)
  {
  }

  /** Python `sep.join(parts)`. */
  function Join(parts: seq<string>, sep: string): string {
    if |parts| == 0 then ""
    else if |parts| == 1 then parts[0]
    else parts[0] + sep + Join(parts[1..], sep)
  }

  /** The second piece of a split, when the separator occurs: the text between its
      first and second occurrences (or the end). */
  lemma SplitSecond(s: string, sep: string, i: nat)
    requires sep != [] && Find(s, sep) == Some(i)
    ensures |Split(s, sep)| >= 2
    ensures Split(s, sep)[1] == UpToFirst(s[i + |sep|..], sep)
  {
    var rest := s[i + |sep|..];
    var pieces := Split(rest, sep);
    SplitAt(s, sep, i);
    SplitFirst(rest, sep);
    assert Split(s, sep)[1] == pieces[0];
  }

  /** A text without the separator splits into itself alone. */
  lemma SplitAbsent(s: string, sep: string)
    requires sep != [] && !Contains(s, sep)
    ensures Split(s, sep) == [s]
  {
  }

  /** A pattern that occurs in a text has its first character in the text. */
  lemma ContainsFirstChar(s: string, pat: string)
    requires pat != []
    ensures Contains(s, pat) ==> pat[0] in s
  {
    if Contains(s, pat) {
      var i := Find(s, pat).value;
      assert s[i..i + |pat|][0] == s[i];
    }
  }

  /** A character absent from the head is first found right after it. */
  lemma FindAfterHead(head: string, c: char, tail: string)
    requires c !in head
    ensures Find(head + [c] + tail, [c]) == Some(|head|)
  {
    var text := head + [c] + tail;
    forall j | 0 <= j < |head|
      ensures !OccursAt(text, [c], j)
    {
      assert text[j] == head[j];
      assert text[j..j + 1] == [head[j]];
    }
    assert text[|head|..|head| + 1] == [c];
    FindFirst(text, [c], |head|);
  }

  /** A text that lacks the pattern's first character, followed by the pattern: the
      pattern is first found right after the text. */
  lemma FindAfterPlain(s: string, pat: string)
    requires pat != [] && pat[0] !in s
    ensures Find(s + pat, pat) == Some(|s|)
  {
    var text := s + pat;
    forall j | 0 <= j < |s|
      ensures !OccursAt(text, pat, j)
    {
      assert text[j] == s[j];
      if j + |pat| <= |text| {
        assert text[j..j + |pat|][0] == text[j];
      }
    }
    assert text[|s|..] == pat;
    FindFirst(text, pat, |s|);
  }

  /** The first occurrence in a text is still the first once more text follows. */
  lemma FindInExtension(head: string, tail: string, pat: string)
    requires Find(head, pat).Some?
    ensures Find(head + tail, pat) == Find(head, pat)
  {
    var i := Find(head, pat).value;
    var text := head + tail;
    forall j | 0 <= j <= i
      ensures OccursAt(text, pat, j) == OccursAt(head, pat, j)
    {
      if j + |pat| <= |head| {
        assert text[j..j + |pat|] == head[j..j + |pat|];
      }
    }
    FindFirst(text, pat, i);
  }

  /** When the first separator is the one right after `a`, and `b` holds none, the
      first two pieces of `a + sep + b` are `a` and `b`. */
  lemma SplitPair(a: string, sep: string, b: string)
    requires sep != [] && Find(a + sep, sep) == Some(|a|) && !Contains(b, sep)
    ensures |Split(a + sep + b, sep)| >= 2
    ensures Split(a + sep + b, sep)[0] == a && Split(a + sep + b, sep)[1] == b
  {
    var head := a + sep;
    var text := head + b;
    FindInExtension(head, b, sep);
    SplitFirst(text, sep);
    SplitSecond(text, sep, |a|);
    assert text[..|a|] == a;
    assert text[|a| + |sep|..] == b;
    assert !OccursAt(b, sep, |b|) by {
      assert |b| + |sep| > |b|;
    }
    assert StartsWith(b, UpToFirst(b, sep));
  }

  /** Joining lines that hold no separator character and splitting again gives the lines back. */
  lemma {:induction false} SplitJoin(parts: seq<string>, sep: char)
    requires |parts| >= 1
    requires forall k :: 0 <= k < |parts| ==> sep !in parts[k]
    ensures Split(Join(parts, [sep]), [sep]) == parts
  {
    var head := parts[0];
    if |parts| == 1 {
      ContainsFirstChar(head, [sep]);
      SplitAbsent(head, [sep]);
    } else {
      var tail := Join(parts[1..], [sep]);
      var text := head + [sep] + tail;
      assert Join(parts, [sep]) == text;
      FindAfterHead(head, sep, tail);
      SplitAt(text, [sep], |head|);
      assert text[..|head|] == head;
      assert text[|head| + 1..] == tail;
      SplitJoin(parts[1..], sep);
      assert parts == [head] + parts[1..];
    }
  }

  /** Joining two non-empty lists of pieces: the separator stands between the two joins. */
  lemma {:induction false} JoinAppend(a: seq<string>, b: seq<string>, sep: string)
    requires |a| >= 1 && |b| >= 1
    ensures Join(a + b, sep) == Join(a, sep) + sep + Join(b, sep)
    decreases |a|
  {
    if |a| == 1 {
      JoinCons(a[0], b, sep);
    } else {
      JoinAppend(a[1..], b, sep);
      assert (a + b)[1..] == a[1..] + b;
      JoinCons(a[0], a[1..] + b, sep);
      JoinCons(a[0], a[1..], sep);
      assert a == [a[0]] + a[1..];
      assert a + b == [a[0]] + (a[1..] + b);
    }
  }

  /** Python `s.replace(pat, "")`: occurrences are removed scanning left to right,
      without overlap. */
  function RemoveAll(s: string, pat: string): (r: string)
    requires pat != []
    ensures |r| <= |s|
    decreases |s|
  {
    if |s| < |pat| then s
    else if StartsWith(s, pat) then RemoveAll(s[|pat|..], pat)
    else [s[0]] + RemoveAll(s[1..], pat)
  }

  lemma {:induction false} JoinCons(head: string, tail: seq<string>, sep: string)
    requires |tail| >= 1
    ensures Join([head] + tail, sep) == head + sep + Join(tail, sep)
  {
    assert ([head] + tail)[1..] == tail;
  }

  /** Away from an occurrence at the front, the search moves one character on. */
  lemma FindShift(s: string, pat: string)
    requires |s| >= 1 && !OccursAt(s, pat, 0)
    ensures Find(s, pat) == match Find(s[1..], pat) case None => None case Some(i) => Some(i + 1)
  {
    if |s| < |pat| {
      assert Find(s[1..], pat).None?;
    }
  }

  /** Away from an occurrence at the front, the first character belongs to the first piece. */
  lemma SplitShift(s: string, pat: string)
    requires pat != [] && |s| >= 1 && !OccursAt(s, pat, 0)
    ensures var t := Split(s[1..], pat); Split(s, pat) == [[s[0]] + t[0]] + t[1..]
  {
    FindShift(s, pat);
    var tail := s[1..];
    var t := Split(tail, pat);
    match Find(tail, pat)
    case None =>
      SplitAbsent(tail, pat);
      SplitAbsent(s, pat);
      assert [s[0]] + tail == s;
    case Some(i) =>
      var after := tail[i + |pat|..];
      SplitAt(tail, pat, i);
      SplitAt(s, pat, i + 1);
      assert after == s[i + 1 + |pat|..];
      assert s[..i + 1] == [s[0]] + tail[..i];
  }

  lemma {:induction false} JoinEmptyPrepend(c: char, parts: seq<string>)
    requires |parts| >= 1
    ensures Join([[c] + parts[0]] + parts[1..], "") == [c] + Join(parts, "")
  {
    if |parts| > 1 {
      JoinCons([c] + parts[0], parts[1..], "");
      JoinCons(parts[0], parts[1..], "");
      assert parts == [parts[0]] + parts[1..];
    }
  }

  /** Removing every occurrence is splitting on it and joining the pieces with nothing. */
  lemma {:induction false} RemoveAllIsJoinOfSplit(s: string, pat: string)
    requires pat != []
    ensures RemoveAll(s, pat) == Join(Split(s, pat), "")
    decreases |s|
  {
    if |s| < |pat| {
      assert Find(s, pat).None?;
    } else if StartsWith(s, pat) {
      assert OccursAt(s, pat, 0);
      FindFirst(s, pat, 0);
      RemoveAllIsJoinOfSplit(s[|pat|..], pat);
      JoinCons([], Split(s[|pat|..], pat), "");
    } else {
      RemoveAllIsJoinOfSplit(s[1..], pat);
      SplitShift(s, pat);
      JoinEmptyPrepend(s[0], Split(s[1..], pat));
    }
  }

  /** The characters Python's `str.isspace` accepts, which `strip()` removes. */
  predicate IsSpace(c: char) {
    c == ' ' || '\t' <= c <= '\r' || '\U{1C}' <= c <= '\U{1F}' || c == '\U{85}' || c == '\U{A0}'
    || c == '\U{1680}' || '\U{2000}' <= c <= '\U{200A}' || c == '\U{2028}' || c == '\U{2029}'
    || c == '\U{202F}' || c == '\U{205F}' || c == '\U{3000}'
  }

  /** Number of leading whitespace characters. */
  function LeadingSpaces(s: string): (n: nat)
    ensures n <= |s|
    ensures forall k :: 0 <= k < n ==> IsSpace(s[k])
    ensures n < |s| ==> !IsSpace(s[n])
  {
    if |s| > 0 && IsSpace(s[0]) then 1 + LeadingSpaces(s[1..]) else 0
  }

  /** Number of trailing whitespace characters. */
  function TrailingSpaces(s: string): (n: nat)
    ensures n <= |s|
    ensures forall k :: |s| - n <= k < |s| ==> IsSpace(s[k])
    ensures n < |s| ==> !IsSpace(s[|s| - 1 - n])
  {
    if |s| > 0 && IsSpace(s[|s| - 1]) then 1 + TrailingSpaces(s[..|s| - 1]) else 0
  }

  /** Python `s.strip()`: the text between the leading and the trailing whitespace. */
  function Strip(s: string): string {
    var rest := s[LeadingSpaces(s)..];
    rest[..|rest| - TrailingSpaces(rest)]
  }

  /** Python `str.lower()` restricted to ASCII letters. */
  function LowerChar(c: char): char {
    if 'A' <= c <= 'Z' then (c as int - 'A' as int + 'a' as int) as char else c
  }

  function Lower(s: string): (r: string)
    ensures |r| == |s|
    ensures forall k :: 0 <= k < |s| ==> r[k] == LowerChar(s[k])
  {
    seq(|s|, k requires 0 <= k < |s| => LowerChar(s[k]))
  }

  /** Lowering leaves no ASCII capital behind, so lowering twice is lowering once. */
  lemma LowerIdempotent(s: string)
    ensures forall k :: 0 <= k < |s| ==> !('A' <= Lower(s)[k] <= 'Z')
    ensures Lower(Lower(s)) == Lower(s)
  {
  }
}
