/** The text filters of analysis.py: `is_irrelevant_claim` (lines 42-49) and the
    sentence filter of `extract_valid_claims` (lines 33-39). Sentence segmentation is
    done by a language model library, so the sentences of the text are an input here. */
module Claims {
  import opened Wrappers
  import opened Strings

  /** The fixed keyword list of `is_irrelevant_claim`, in its order. */
  const IrrelevantKeywords: seq<string> := [
    "welcome", "thread", "question", "ask", "simple", "silly", "rules", "guidelines", "discuss",
    "discussion", "community", "promote", "advertise", "opinion", "thoughts", "well", "good", "try", "dreams"
  ]

  /** Python `any(keyword in text for keyword in keywords)`: substring tests, in order. */
  predicate AnyKeywordIn(keywords: seq<string>, text: string) {
    keywords != [] && (Contains(text, keywords[0]) || AnyKeywordIn(keywords[1..], text))
  }

  /** The scan finds a keyword exactly when one of them occurs in the text. */
  lemma {:induction false} AnyKeywordInExists(keywords: seq<string>, text: string)
    ensures AnyKeywordIn(keywords, text) <==> exists k :: 0 <= k < |keywords| && Contains(text, keywords[k])
  {
    if keywords != [] {
      AnyKeywordInExists(keywords[1..], text);
      assert forall k :: 1 <= k < |keywords| ==> keywords[k] == keywords[1..][k - 1];
    }
  }

  /** `is_irrelevant_claim`: some keyword occurs in the lower-cased claim. */
  predicate IsIrrelevantClaim(claim: string) {
    AnyKeywordIn(IrrelevantKeywords, Lower(claim))
  }

  /** A claim is irrelevant exactly when one of the keywords is a substring of its
      lower-cased text. */
  lemma IrrelevantIffKeyword(claim: string)
    ensures IsIrrelevantClaim(claim) <==>
      exists k :: 0 <= k < |IrrelevantKeywords| && Contains(Lower(claim), IrrelevantKeywords[k])
  {
    AnyKeywordInExists(IrrelevantKeywords, Lower(claim));
  }

  /** The test ignores case: a claim and its lower-cased form are judged alike. */
  lemma IrrelevanceIgnoresCase(claim: string)
    ensures IsIrrelevantClaim(Lower(claim)) == IsIrrelevantClaim(claim)
  {
    LowerIdempotent(claim);
    IrrelevantIffKeyword(claim);
    IrrelevantIffKeyword(Lower(claim));
  }

  /** The keywords are matched as substrings, not words: "Farewell" is irrelevant
      because it contains "well". */
  lemma SubstringMatch()
    ensures IsIrrelevantClaim("Farewell")
  {
    var lowered := Lower("Farewell");
    assert lowered == "farewell";
    assert OccursAt(lowered, "well", 4);
    assert IrrelevantKeywords[15] == "well";
    IrrelevantIffKeyword("Farewell");
  }

  /** A sentence is kept when its unstripped length exceeds 20 and it is not irrelevant. */
  predicate KeepsSentence(sentence: string) {
    |sentence| > 20 && !IsIrrelevantClaim(sentence)
  }

  /** The list comprehension of `extract_valid_claims`: the kept sentences, stripped, in order. */
  function KeepClaims(sentences: seq<string>): (r: seq<string>)
    ensures |r| <= |sentences|
  {
    if sentences == [] then []
    else (if KeepsSentence(sentences[0]) then [Strip(sentences[0])] else []) + KeepClaims(sentences[1..])
  }

  /** `claim` is the stripped form of a sentence that passes both tests. */
  predicate FromKeptSentence(claim: string, sentences: seq<string>) {
    exists j :: 0 <= j < |sentences| && KeepsSentence(sentences[j]) && claim == Strip(sentences[j])
  }

  /** A claim kept from the later sentences is kept from the whole list. */
  lemma FromKeptTail(claim: string, sentences: seq<string>)
    requires sentences != [] && FromKeptSentence(claim, sentences[1..])
    ensures FromKeptSentence(claim, sentences)
  {
    var tail := sentences[1..];
    var j :| 0 <= j < |tail| && KeepsSentence(tail[j]) && claim == Strip(tail[j]);
    assert sentences[j + 1] == tail[j];
  }

  /** Every kept claim is the stripped form of a sentence that passes both tests. */
  lemma {:induction false} KeptClaimsAreKeptSentences(sentences: seq<string>)
    ensures forall k :: 0 <= k < |KeepClaims(sentences)| ==> FromKeptSentence(KeepClaims(sentences)[k], sentences)
  {
    if sentences != [] {
      var rest := KeepClaims(sentences[1..]);
      KeptClaimsAreKeptSentences(sentences[1..]);
      var r := KeepClaims(sentences);
      if KeepsSentence(sentences[0]) {
        assert r == [Strip(sentences[0])] + rest;
        forall k | 0 <= k < |r|
          ensures FromKeptSentence(r[k], sentences)
        {
          if k > 0 {
            assert r[k] == rest[k - 1];
            FromKeptTail(rest[k - 1], sentences);
          }
        }
      } else {
        assert r == rest;
        forall k | 0 <= k < |r|
          ensures FromKeptSentence(r[k], sentences)
        {
          FromKeptTail(rest[k], sentences);
        }
      }
    }
  }

  /** Every sentence that passes both tests gives a kept claim. */
  lemma {:induction false} KeptSentencesAreKept(sentences: seq<string>)
    ensures forall j :: 0 <= j < |sentences| && KeepsSentence(sentences[j]) ==> Strip(sentences[j]) in KeepClaims(sentences)
  {
    if sentences != [] {
      var tail := sentences[1..];
      KeptSentencesAreKept(tail);
      var r := KeepClaims(sentences);
      forall j | 1 <= j < |sentences| && KeepsSentence(sentences[j])
        ensures Strip(sentences[j]) in r
      {
        assert sentences[j] == tail[j - 1];
      }
    }
  }

  /** The filter keeps order: it works sentence by sentence. */
  lemma {:induction false} KeepClaimsAppend(a: seq<string>, b: seq<string>)
    ensures KeepClaims(a + b) == KeepClaims(a) + KeepClaims(b)
  {
    if a == [] {
      assert a + b == b;
    } else {
      var head := if KeepsSentence(a[0]) then [Strip(a[0])] else [];
      var ab := a + b;
      assert ab[0] == a[0] && ab[1..] == a[1..] + b;
      assert KeepClaims(ab) == head + KeepClaims(a[1..] + b);
      KeepClaimsAppend(a[1..], b);
      var x, y := KeepClaims(a[1..]), KeepClaims(b);
      assert head + (x + y) == (head + x) + y;
      assert KeepClaims(a) == head + x;
    }
  }

  /** One sentence is kept, stripped, exactly when it passes both tests. */
  lemma KeepClaimsOne(sentence: string)
    ensures KeepClaims([sentence]) == if KeepsSentence(sentence) then [Strip(sentence)] else []
  {
    assert [sentence][1..] == [];
  }

  /** `extract_valid_claims`: nothing for a non-string (`None`) or a blank text;
      otherwise the kept sentences of its segmentation. */
  function ExtractValidClaims(text: Option<string>, sentences: seq<string>): (r: seq<string>)
    ensures text.None? || Strip(text.value) == [] ==> r == []
    ensures text.Some? && Strip(text.value) != [] ==> r == KeepClaims(sentences)
  {
    if text.None? || Strip(text.value) == [] then [] else KeepClaims(sentences)
  }

  /** What `extract_valid_claims` returns: nothing for a non-string or a blank text;
      otherwise exactly the stripped sentences that pass both tests, at most one per sentence. */
  lemma ExtractValidClaimsSpec(text: Option<string>, sentences: seq<string>)
    ensures var r := ExtractValidClaims(text, sentences);
      && (text.None? || Strip(text.value) == [] ==> r == [])
      && (text.Some? && Strip(text.value) != [] ==>
            && |r| <= |sentences|
            && (forall k :: 0 <= k < |r| ==> FromKeptSentence(r[k], sentences))
            && (forall j :: 0 <= j < |sentences| && KeepsSentence(sentences[j]) ==> Strip(sentences[j]) in r))
  {
    KeptClaimsAreKeptSentences(sentences);
    KeptSentencesAreKept(sentences);
  }

  /** The length test is made before stripping, so a kept claim can be 20 characters
      or shorter, even empty: a sentence of 21 spaces is kept as "". */
  lemma KeptClaimMayBeShort()
    ensures var sentence := seq(21, k => ' ');
      KeepsSentence(sentence) && KeepClaims([sentence]) == [""]
  {
    var sentence := seq(21, k => ' ');
    LowerSpaces(sentence);
    IrrelevantIffKeyword(sentence);
    forall k | 0 <= k < |IrrelevantKeywords|
      ensures !Contains(Lower(sentence), IrrelevantKeywords[k])
    {
      ContainsFirstChar(Lower(sentence), IrrelevantKeywords[k]);
    }
    KeepClaimsOne(sentence);
  }

  lemma LowerSpaces(s: string)
    requires forall k :: 0 <= k < |s| ==> s[k] == ' '
    ensures Lower(s) == s
  {
  }
}
