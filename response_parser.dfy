/** The loop of `extract_and_validate_claims_with_phi3` that turns the model's answer
    into `(claim, status, explanation)` triples (analysis.py lines 73-87). */
module ResponseParser {
  import opened Wrappers
  import opened Strings

  datatype Triple = Triple(claim: string, status: string, explanation: string)

  const ClaimMarker: string := "- Claim:"
  const StatusMarker: string := "  Status:"
  const ExplanationMarker: string := "  Explanation:"

  /** What one line of the answer is. */
  datatype Line = ClaimLine(text: string) | StatusLine(text: string) | ExplanationLine(text: string) | Other

  /** The text of a marked line: every occurrence of the marker removed, then stripped. */
  function MarkedText(line: string, marker: string): string
    requires marker != []
  {
    Strip(RemoveAll(line, marker))
  }

  /** Python's `line.replace(marker, "")` is `"".join(line.split(marker))`: every
      occurrence of the marker goes, not only the leading one. */
  lemma MarkedTextJoinsSplit(line: string, marker: string)
    requires marker != []
    ensures MarkedText(line, marker) == Strip(Join(Split(line, marker), ""))
  {
    RemoveAllIsJoinOfSplit(line, marker);
  }

  /** A status line gives its value without the marker and the surrounding spaces. */
  lemma StatusExample()
    ensures Classify("  Status: True") == StatusLine("True")
  {
    var line := "  Status: True";
    assert StartsWith(line, StatusMarker);
    assert line[0] != ClaimMarker[0];
    assert RemoveAll(line, StatusMarker) == RemoveAll(" True", StatusMarker);
    assert RemoveAll(" True", StatusMarker) == " True";
    assert LeadingSpaces(" True") == 1;
    assert Strip(" True") == "True";
  }

  /** The `if`/`elif` chain: the prefixes are tested in this order, case-sensitively. */
  function Classify(line: string): Line {
    if StartsWith(line, ClaimMarker) then ClaimLine(MarkedText(line, ClaimMarker))
    else if StartsWith(line, StatusMarker) then StatusLine(MarkedText(line, StatusMarker))
    else if StartsWith(line, ExplanationMarker) then ExplanationLine(MarkedText(line, ExplanationMarker))
    else Other
  }

  /** A line's kind is decided by the first marker it starts with; the text is the
      marked text for that marker. */
  lemma ClassifyByPrefix(line: string)
    ensures Classify(line).ClaimLine? <==> StartsWith(line, ClaimMarker)
    ensures Classify(line).StatusLine? <==> !StartsWith(line, ClaimMarker) && StartsWith(line, StatusMarker)
    ensures Classify(line).ExplanationLine? <==>
      !StartsWith(line, ClaimMarker) && !StartsWith(line, StatusMarker) && StartsWith(line, ExplanationMarker)
    ensures Classify(line).ClaimLine? ==> Classify(line).text == MarkedText(line, ClaimMarker)
    ensures Classify(line).StatusLine? ==> Classify(line).text == MarkedText(line, StatusMarker)
    ensures Classify(line).ExplanationLine? ==> Classify(line).text == MarkedText(line, ExplanationMarker)
  {
  }

  /** The kinds of the lines, in order; the loop classifies each line as it reaches it. */
  function Classified(lines: seq<string>): (r: seq<Line>)
    ensures |r| == |lines|
  {
    seq(|lines|, i requires 0 <= i < |lines| => Classify(lines[i]))
  }

  /** Reading `claim` or `status` before any line assigned it raises `UnboundLocalError`. */
  datatype ParseError = Unbound(variable: string)

  /** The loop's variables after some lines: the last claim and status read, if any,
      and the triples appended so far. */
  datatype Parsed = Parsed(claim: Option<string>, status: Option<string>, triples: seq<Triple>)

  /** One pass of the loop body. The tuple reads `claim` before `status`. */
  function Step(p: Parsed, line: Line): Result<Parsed, ParseError> {
    match line
    case ClaimLine(t) => Success(p.(claim := Some(t)))
    case StatusLine(t) => Success(p.(status := Some(t)))
    case ExplanationLine(t) =>
      if p.claim.None? then Failure(Unbound("claim"))
      else if p.status.None? then Failure(Unbound("status"))
      else Success(p.(triples := p.triples + [Triple(p.claim.value, p.status.value, t)]))
    case Other => Success(p)
  }

  /** The loop over the classified lines, in order; the first failure ends it. */
  function ParseLines(kinds: seq<Line>): Result<Parsed, ParseError> {
    if kinds == [] then Success(Parsed(None, None, []))
    else
      match ParseLines(kinds[..|kinds| - 1])
      case Failure(e) => Failure(e)
      case Success(p) => Step(p, kinds[|kinds| - 1])
  }

  /** The triples of an answer: the decoded text is stripped, then split at "\n". */
  function ParseResponse(decoded: string): Result<seq<Triple>, ParseError> {
    match ParseLines(Classified(Split(Strip(decoded), "\n")))
    case Success(p) => Success(p.triples)
    case Failure(e) => Failure(e)
  }

  /** `extract_and_validate_claims_with_phi3` after the answer is decoded: strip, split
      at "\n", run the loop. */
  method ExtractTriples(decoded: string) returns (r: Result<seq<Triple>, ParseError>)
    ensures r == ParseResponse(decoded)
  {
    var response := Strip(decoded);
    var result := ReadLines(Split(response, "\n"));
    match result
    case Success(p) => r := Success(p.triples);
    case Failure(e) => r := Failure(e);
  }

  /** The loop itself, over the lines of the stripped answer. */
  method ReadLines(lines: seq<string>) returns (r: Result<Parsed, ParseError>)
    ensures r == ParseLines(Classified(lines))
  {
    ghost var kinds := Classified(lines);
    var claim: Option<string> := None;
    var status: Option<string> := None;
    var triples: seq<Triple> := [];
    for i := 0 to |lines|
      invariant ParseLines(kinds[..i]) == Success(Parsed(claim, status, triples))
    {
      var next := ReadLine(Parsed(claim, status, triples), lines[i]);
      ParseLinesStep(kinds, i);
      if next.Failure? {
        FailureSticks(kinds, i + 1);
        return next;
      }
      claim, status, triples := next.value.claim, next.value.status, next.value.triples;
    }
    assert kinds[..|lines|] == kinds;
    return Success(Parsed(claim, status, triples));
  }

  /** The body of the loop for one line: the `if`/`elif` chain on the markers. */
  method ReadLine(p: Parsed, line: string) returns (r: Result<Parsed, ParseError>)
    ensures r == Step(p, Classify(line))
  {
    ClassifyByPrefix(line);
    if StartsWith(line, ClaimMarker) {
      r := Success(p.(claim := Some(MarkedText(line, ClaimMarker))));
    } else if StartsWith(line, StatusMarker) {
      r := Success(p.(status := Some(MarkedText(line, StatusMarker))));
    } else if StartsWith(line, ExplanationMarker) {
      var explanation := MarkedText(line, ExplanationMarker);
      if p.claim.None? {
        r := Failure(Unbound("claim"));
      } else if p.status.None? {
        r := Failure(Unbound("status"));
      } else {
        r := Success(p.(triples := p.triples + [Triple(p.claim.value, p.status.value, explanation)]));
      }
    } else {
      r := Success(p);
    }
  }

  /** One more line: the loop stops on an earlier failure, otherwise makes one step. */
  lemma ParseLinesStep(kinds: seq<Line>, i: nat)
    requires i < |kinds|
    ensures ParseLines(kinds[..i + 1]) ==
      match ParseLines(kinds[..i]) case Failure(e) => Failure(e) case Success(p) => Step(p, kinds[i])
  {
    assert kinds[..i + 1][..i] == kinds[..i];
  }

  /** Once the loop has raised, the lines after it change nothing. */
  lemma {:induction false} FailureSticks(kinds: seq<Line>, n: nat)
    requires n <= |kinds| && ParseLines(kinds[..n]).Failure?
    ensures ParseLines(kinds) == ParseLines(kinds[..n])
    decreases |kinds|
  {
    if n < |kinds| {
      var prefix := kinds[..|kinds| - 1];
      assert prefix[..n] == kinds[..n];
      FailureSticks(prefix, n);
    } else {
      assert kinds[..n] == kinds;
    }
  }

  /** The text of the last claim line, if there is one. */
  function LastClaim(kinds: seq<Line>): (r: Option<string>) {
    if kinds == [] then None
    else match kinds[|kinds| - 1]
      case ClaimLine(t) => Some(t)
      case _ => LastClaim(kinds[..|kinds| - 1])
  }

  /** The text of the last status line, if there is one. */
  function LastStatus(kinds: seq<Line>): (r: Option<string>) {
    if kinds == [] then None
    else match kinds[|kinds| - 1]
      case StatusLine(t) => Some(t)
      case _ => LastStatus(kinds[..|kinds| - 1])
  }

  /** Line `i` is not an explanation line, or some claim line and some status line
      come before it. */
  predicate Supported(kinds: seq<Line>, i: nat)
    requires i < |kinds|
  {
    kinds[i].ExplanationLine? ==> LastClaim(kinds[..i]).Some? && LastStatus(kinds[..i]).Some?
  }

  /** Every explanation line comes after some claim line and some status line. */
  predicate WellOrdered(kinds: seq<Line>) {
    forall i :: 0 <= i < |kinds| ==> Supported(kinds, i)
  }

  /** Dropping the last line leaves the support of the earlier lines unchanged. */
  lemma SupportedInPrefix(kinds: seq<Line>, i: nat)
    requires i < |kinds| - 1
    ensures Supported(kinds, i) == Supported(kinds[..|kinds| - 1], i)
  {
    var prefix := kinds[..|kinds| - 1];
    assert kinds[i] == prefix[i] && kinds[..i] == prefix[..i];
  }

  /** The reference result: one triple per explanation line, made of the last claim
      and status before it. */
  function ExpectedTriples(kinds: seq<Line>): seq<Triple> {
    if kinds == [] then []
    else
      var prefix := kinds[..|kinds| - 1];
      ExpectedTriples(prefix) +
        match kinds[|kinds| - 1]
        case ExplanationLine(t) =>
          if LastClaim(prefix).Some? && LastStatus(prefix).Some?
          then [Triple(LastClaim(prefix).value, LastStatus(prefix).value, t)] else []
        case _ => []
  }

  /** The number of explanation lines. */
  function CountExplanations(kinds: seq<Line>): nat {
    if kinds == [] then 0
    else CountExplanations(kinds[..|kinds| - 1]) + if kinds[|kinds| - 1].ExplanationLine? then 1 else 0
  }

  /** An answer is well ordered when its first lines are and its last line is supported. */
  lemma WellOrderedPrefix(kinds: seq<Line>)
    requires kinds != []
    ensures WellOrdered(kinds) <==>
      WellOrdered(kinds[..|kinds| - 1]) &&
      (kinds[|kinds| - 1].ExplanationLine? ==>
         LastClaim(kinds[..|kinds| - 1]).Some? && LastStatus(kinds[..|kinds| - 1]).Some?)
  {
    var prefix := kinds[..|kinds| - 1];
    forall i | 0 <= i < |prefix|
      ensures Supported(kinds, i) == Supported(prefix, i)
    {
      SupportedInPrefix(kinds, i);
    }
    assert Supported(kinds, |prefix|) <==>
      (kinds[|prefix|].ExplanationLine? ==> LastClaim(prefix).Some? && LastStatus(prefix).Some?);
  }

  /** The loop succeeds exactly on well-ordered answers; then `claim` and `status` hold
      the last claim and status read, and the triples are the reference ones. */
  lemma {:induction false} ParseLinesCorrect(kinds: seq<Line>)
    ensures ParseLines(kinds).Success? <==> WellOrdered(kinds)
    ensures ParseLines(kinds).Success? ==>
      ParseLines(kinds).value == Parsed(LastClaim(kinds), LastStatus(kinds), ExpectedTriples(kinds))
  {
    if kinds != [] {
      var prefix := kinds[..|kinds| - 1];
      ParseLinesCorrect(prefix);
      WellOrderedPrefix(kinds);
    }
  }

  /** A well-ordered answer gives one triple per explanation line. */
  lemma {:induction false} TripleCount(kinds: seq<Line>)
    requires WellOrdered(kinds)
    ensures ParseLines(kinds).Success? && |ParseLines(kinds).value.triples| == CountExplanations(kinds)
  {
    ParseLinesCorrect(kinds);
    ExpectedCount(kinds);
  }

  lemma {:induction false} ExpectedCount(kinds: seq<Line>)
    requires WellOrdered(kinds)
    ensures |ExpectedTriples(kinds)| == CountExplanations(kinds)
  {
    if kinds != [] {
      WellOrderedPrefix(kinds);
      ExpectedCount(kinds[..|kinds| - 1]);
    }
  }

  /** The last claim line is found if and only if some claim line exists. */
  lemma {:induction false} LastClaimExists(kinds: seq<Line>)
    ensures LastClaim(kinds).Some? <==> exists i :: 0 <= i < |kinds| && kinds[i].ClaimLine?
  {
    if kinds != [] {
      var prefix := kinds[..|kinds| - 1];
      LastClaimExists(prefix);
      assert forall i :: 0 <= i < |prefix| ==> kinds[i] == prefix[i];
    }
  }

  /** A failing answer fails on its first badly placed explanation line: with no claim
      line before it the error names `claim`, otherwise `status`. */
  lemma {:induction false} FirstFailure(kinds: seq<Line>, i: nat)
    requires i < |kinds| && kinds[i].ExplanationLine?
    requires WellOrdered(kinds[..i])
    requires LastClaim(kinds[..i]).None? || LastStatus(kinds[..i]).None?
    ensures ParseLines(kinds) == Failure(Unbound(if LastClaim(kinds[..i]).None? then "claim" else "status"))
    decreases |kinds|
  {
    var prefix := kinds[..|kinds| - 1];
    if i < |kinds| - 1 {
      assert prefix[..i] == kinds[..i] && prefix[i] == kinds[i];
      FirstFailure(prefix, i);
    } else {
      assert prefix == kinds[..i];
      ParseLinesCorrect(prefix);
    }
  }
}
