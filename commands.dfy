/** `execute_command` (connect.py lines 65-93): the oracle's text is matched against the
    five command forms and the matching page calls are made; the outcome is one of
    "success", "error" and "done". */
module Commands {
  import Wrappers
  import opened Strings
  import opened Browser

  /** What the text asks for, in the order `execute_command` tries the forms. */
  datatype Command =
    | ClickOn(selector: string)
    | FillIn(selector: string, value: string)
    | FillWithoutValue          // no ", value: " after "fill: ": `parts[1]` raises IndexError
    | NavigateTo(target: string)
    | ScrollDown
    | Finish                    // exactly "done"
    | NoAction                  // none of the five forms

  /** The strings "success", "error" and "done". */
  datatype Status = Success | Error | Done

  const ClickPrefix := "click: "
  const FillPrefix := "fill: "
  const NavigatePrefix := "navigate: "
  const ValueSeparator := ", value: "
  const ScrollScript := "window.scrollBy(0, window.innerHeight)"
  const NetworkIdle := "networkidle"

  /** Python `text.split(prefix)[1]` where `text` starts with `prefix`. */
  function AfterPrefix(text: string, prefix: string): string
    requires prefix != [] && StartsWith(text, prefix)
  {
    SplitLeading(text, prefix);
    Split(text, prefix)[1]
  }

  /** The fill form's arguments, `split(", value: ")`: a selector and a value, both
      stripped; with fewer than two parts, `parts[1]` raises. */
  function FillCommand(arguments: string): Command {
    var parts := Split(arguments, ValueSeparator);
    if |parts| < 2 then FillWithoutValue else FillIn(Strip(parts[0]), Strip(parts[1]))
  }

  function Interpret(text: string): Command {
    if StartsWith(text, ClickPrefix) then
      ClickOn(Strip(AfterPrefix(text, ClickPrefix)))
    else if StartsWith(text, FillPrefix) then
      FillCommand(AfterPrefix(text, FillPrefix))
    else if StartsWith(text, NavigatePrefix) then
      NavigateTo(Strip(AfterPrefix(text, NavigatePrefix)))
    else if text == "scroll" then ScrollDown
    else if text == "done" then Finish
    else NoAction
  }

  /** The forms are tried in a fixed order: three prefixes, each with its trailing
      space, then two exact matches; anything else asks for nothing. */
  lemma InterpretDispatch(text: string)
    ensures Interpret(text).ClickOn? <==> StartsWith(text, ClickPrefix)
    ensures (Interpret(text).FillIn? || Interpret(text).FillWithoutValue?)
      <==> !StartsWith(text, ClickPrefix) && StartsWith(text, FillPrefix)
    ensures Interpret(text).NavigateTo? <==>
      !StartsWith(text, ClickPrefix) && !StartsWith(text, FillPrefix) && StartsWith(text, NavigatePrefix)
    ensures Interpret(text).ScrollDown? <==> text == "scroll"
    ensures Interpret(text).Finish? <==> text == "done"
    ensures Interpret(text).NoAction? <==>
      !StartsWith(text, ClickPrefix) && !StartsWith(text, FillPrefix)
      && !StartsWith(text, NavigatePrefix) && text != "scroll" && text != "done"
  {
    if text == "scroll" {
      assert text[0] != FillPrefix[0];
    }
  }

  /** After a prefix that opens the text, `split(prefix)[1]` is what follows it up to the
      prefix's next occurrence, or to the end. */
  lemma AfterPrefixUpToNext(text: string, prefix: string)
    requires prefix != [] && StartsWith(text, prefix)
    ensures AfterPrefix(text, prefix) == UpToFirst(text[|prefix|..], prefix)
  {
    assert OccursAt(text, prefix, 0);
    FindFirst(text, prefix, 0);
    SplitSecond(text, prefix, 0);
  }

  /** The click selector: the stripped text between "click: " and its next occurrence. */
  lemma ClickSelector(text: string)
    requires StartsWith(text, ClickPrefix)
    ensures Interpret(text) == ClickOn(Strip(UpToFirst(text[|ClickPrefix|..], ClickPrefix)))
  {
    AfterPrefixUpToNext(text, ClickPrefix);
  }

  /** The navigation target: the stripped text between "navigate: " and its next occurrence. */
  lemma NavigateTarget(text: string)
    requires StartsWith(text, NavigatePrefix)
    ensures Interpret(text) == NavigateTo(Strip(UpToFirst(text[|NavigatePrefix|..], NavigatePrefix)))
  {
    FirstCharExcludes(text, NavigatePrefix, ClickPrefix);
    FirstCharExcludes(text, NavigatePrefix, FillPrefix);
    AfterPrefixUpToNext(text, NavigatePrefix);
  }

  /** The fill arguments: without ", value: " there is no value; otherwise the selector
      is what precedes the first separator and the value what lies between the first
      and the second (or the end), both stripped. */
  lemma FillCommandParts(arguments: string)
    ensures !Contains(arguments, ValueSeparator) ==> FillCommand(arguments) == FillWithoutValue
    ensures Contains(arguments, ValueSeparator) ==>
      var at := Find(arguments, ValueSeparator).value;
      FillCommand(arguments) == FillIn(Strip(UpToFirst(arguments, ValueSeparator)),
                                       Strip(UpToFirst(arguments[at + |ValueSeparator|..], ValueSeparator)))
  {
    SplitFirst(arguments, ValueSeparator);
    if Contains(arguments, ValueSeparator) {
      SplitSecond(arguments, ValueSeparator, Find(arguments, ValueSeparator).value);
    } else {
      SplitAbsent(arguments, ValueSeparator);
    }
  }

  /** The fill command reads its arguments from what follows "fill: " up to that
      prefix's next occurrence. */
  lemma FillArguments(text: string)
    requires StartsWith(text, FillPrefix)
    ensures Interpret(text) == FillCommand(UpToFirst(text[|FillPrefix|..], FillPrefix))
  {
    FirstCharExcludes(text, FillPrefix, ClickPrefix);
    AfterPrefixUpToNext(text, FillPrefix);
  }

  /** A text with no leading or trailing whitespace is its own stripped form. */
  lemma StripTrimmed(s: string)
    requires s != [] && !IsSpace(s[0]) && !IsSpace(s[|s| - 1])
    ensures Strip(s) == s
  {
    assert LeadingSpaces(s) == 0;
    assert s[0..] == s;
    assert TrailingSpaces(s) == 0;
  }

  /** Text without a pattern is all taken by `UpToFirst`. */
  lemma UpToFirstAbsent(s: string, pat: string)
    requires pat != [] && !Contains(s, pat)
    ensures UpToFirst(s, pat) == s
  {
    assert StartsWith(s, UpToFirst(s, pat));
  }

  /** "click: " followed by a selector in which "click: " does not occur again clicks
      that selector, stripped. */
  lemma ClickPlain(text: string, selector: string)
    requires text == ClickPrefix + selector
    requires !Contains(selector, ClickPrefix)
    ensures Interpret(text) == ClickOn(Strip(selector))
  {
    assert StartsWith(text, ClickPrefix);
    assert text[|ClickPrefix|..] == selector;
    ClickSelector(text);
    UpToFirstAbsent(selector, ClickPrefix);
  }

  /** A text lacking some character of a pattern does not contain that pattern. */
  lemma LacksChar(s: string, pat: string, k: nat)
    requires k < |pat| && forall j :: 0 <= j < |s| ==> s[j] != pat[k]
    ensures !Contains(s, pat)
  {
    forall i | 0 <= i
      ensures !OccursAt(s, pat, i)
    {
      if i + |pat| <= |s| {
        assert s[i..i + |pat|][k] == s[i + k];
      }
    }
  }

  /** "click: " does not occur in `button#submit`. */
  lemma ClickSampleSingle()
    ensures !Contains("button#submit", ClickPrefix)
  {
    LacksChar("button#submit", ClickPrefix, 0);
  }

  /** `button#submit` has no surrounding whitespace. */
  lemma ClickSampleTrimmed()
    ensures Strip("button#submit") == "button#submit"
  {
    StripTrimmed("button#submit");
  }

  lemma ClickSampleText()
    ensures ClickPrefix + "button#submit" == "click: button#submit"
  {
  }

  /** "click: button#submit" clicks `button#submit`. */
  lemma ClickExample()
    ensures Interpret("click: button#submit") == ClickOn("button#submit")
  {
    ClickSampleSingle();
    ClickSampleTrimmed();
    ClickSampleText();
    ClickPlain("click: button#submit", "button#submit");
  }

  /** "fill: " followed by arguments in which "fill: " does not occur again reads all of
      them as the arguments. */
  lemma FillWhole(arguments: string)
    requires !Contains(arguments, FillPrefix)
    ensures Interpret(FillPrefix + arguments) == FillCommand(arguments)
  {
    var text := FillPrefix + arguments;
    assert StartsWith(text, FillPrefix);
    assert text[|FillPrefix|..] == arguments;
    FillArguments(text);
    UpToFirstAbsent(arguments, FillPrefix);
  }

  /** Arguments whose first ", value: " follows the selector, and whose value holds no
      further separator, are read back as that selector and that value, stripped. */
  lemma FillCommandPlain(selector: string, value: string)
    requires Find(selector + ValueSeparator, ValueSeparator) == Wrappers.Some(|selector|)
    requires !Contains(value, ValueSeparator)
    ensures FillCommand(selector + ValueSeparator + value) == FillIn(Strip(selector), Strip(value))
  {
    SplitPair(selector, ValueSeparator, value);
  }

  /** "fill: " followed by a selector, ", value: " and a value fills that selector with
      that value, both stripped, when "fill: " does not occur again, the first separator
      is the one after the selector, and the value holds no further separator. */
  lemma FillPlain(text: string, selector: string, value: string)
    requires text == FillPrefix + (selector + ValueSeparator + value)
    requires !Contains(selector + ValueSeparator + value, FillPrefix)
    requires Find(selector + ValueSeparator, ValueSeparator) == Wrappers.Some(|selector|)
    requires !Contains(value, ValueSeparator)
    ensures Interpret(text) == FillIn(Strip(selector), Strip(value))
  {
    FillWhole(selector + ValueSeparator + value);
    FillCommandPlain(selector, value);
  }

  lemma CharAbsent(s: string, c: char)
    requires forall k :: 0 <= k < |s| ==> s[k] != c
    ensures c !in s
  {
  }

  /** `input[name='q']` is followed by its first ", value: ". */
  lemma FillSampleSelector()
    ensures Find("input[name='q']" + ValueSeparator, ValueSeparator) == Wrappers.Some(|"input[name='q']"|)
  {
    CharAbsent("input[name='q']", ',');
    FindAfterPlain("input[name='q']", ValueSeparator);
  }

  /** "fill: " does not occur again in the sample arguments. */
  lemma FillSampleSingle()
    ensures !Contains("input[name='q']" + ValueSeparator + "\"hello\"", FillPrefix)
  {
    assert "input[name='q']" + ValueSeparator + "\"hello\"" == "input[name='q'], value: \"hello\"";
    LacksChar("input[name='q'], value: \"hello\"", FillPrefix, 0);
  }

  /** The sample value holds no separator. */
  lemma FillSampleValue()
    ensures !Contains("\"hello\"", ValueSeparator)
  {
    LacksChar("\"hello\"", ValueSeparator, 0);
  }

  /** The sample selector and value have no surrounding whitespace. */
  lemma FillSampleTrimmed()
    ensures Strip("input[name='q']") == "input[name='q']"
    ensures Strip("\"hello\"") == "\"hello\""
  {
    StripTrimmed("input[name='q']");
    StripTrimmed("\"hello\"");
  }

  lemma FillSampleText()
    ensures FillPrefix + ("input[name='q']" + ValueSeparator + "\"hello\"") == "fill: input[name='q'], value: \"hello\""
  {
  }

  /** `fill: input[name='q'], value: "hello"` fills `input[name='q']` with `"hello"`,
      quotes included. */
  lemma FillExample()
    ensures Interpret("fill: input[name='q'], value: \"hello\"")
         == FillIn("input[name='q']", "\"hello\"")
  {
    FillSampleSelector();
    FillSampleSingle();
    FillSampleValue();
    FillSampleTrimmed();
    FillSampleText();
    FillPlain("fill: input[name='q'], value: \"hello\"", "input[name='q']", "\"hello\"");
  }

  /** "banana" matches none of the forms: nothing is asked of the page but the wait. */
  lemma UnknownExample()
    ensures Interpret("banana") == NoAction
  {
    InterpretDispatch("banana");
  }

  /** The page calls a command makes, in order, when none of them raises. */
  function Plan(c: Command, url: string, resolve: (string, string) -> string): seq<Call> {
    match c
    case ClickOn(selector) => [Click(selector), WaitForLoadState(NetworkIdle)]
    case FillIn(selector, value) =>
      [Fill(selector, value), SubmitEnclosingForm(selector), WaitForLoadState(NetworkIdle)]
    case FillWithoutValue => []
    case NavigateTo(target) => [Goto(resolve(url, target)), WaitForLoadState(NetworkIdle)]
    case ScrollDown => [Evaluate(ScrollScript), WaitForLoadState(NetworkIdle)]
    case Finish => []
    case NoAction => [WaitForLoadState(NetworkIdle)]
  }

  /** Makes the calls in order, stopping at the first that raises. */
  function RunPlan(b: BrowserState, plan: seq<Call>): (bool, BrowserState)
    decreases |plan|
  {
    if plan == [] then (true, b)
    else
      var (ok, next) := Perform(b, plan[0]);
      if !ok then (false, next) else RunPlan(next, plan[1..])
  }

  /** The reactions left after `n` calls. */
  function Drop(script: seq<Effect>, n: nat): seq<Effect> {
    if n >= |script| then [] else script[n..]
  }

  /** None of the first `n` reactions raises. */
  predicate NoRaise(script: seq<Effect>, n: int) {
    forall k :: 0 <= k < n && k < |script| ==> !script[k].Raise?
  }

  /** Running a plan makes a prefix of its calls, and consumes one reaction per call made. */
  lemma {:induction false} RunPlanMakesPrefix(b: BrowserState, plan: seq<Call>)
    ensures var after := RunPlan(b, plan).1;
      var n := |after.log| - |b.log|;
      && 0 <= n <= |plan|
      && after.log == b.log + plan[..n]
      && after.script == Drop(b.script, n)
    decreases |plan|
  {
    if plan == [] {
      assert b.script == Drop(b.script, 0);
    } else {
      var first := Perform(b, plan[0]);
      var next := first.1;
      if first.0 {
        RunPlanMakesPrefix(next, plan[1..]);
        var after := RunPlan(next, plan[1..]).1;
        assert RunPlan(b, plan).1 == after;
        var m := |after.log| - |next.log|;
        assert |after.log| - |b.log| == m + 1;
        PrefixAfterFirst(b.log, b.script, plan, next.script, after.log, after.script, m);
      } else {
        assert plan[..1] == [plan[0]];
      }
    }
  }

  /** The prefix facts for the rest of a plan, run after a first call was logged and
      consumed its reaction, give those for the whole plan, one call further on. */
  lemma PrefixAfterFirst(log: seq<Call>, script: seq<Effect>, plan: seq<Call>, rest: seq<Effect>,
                         afterLog: seq<Call>, afterScript: seq<Effect>, m: int)
    requires plan != [] && 0 <= m <= |plan| - 1
    requires rest == if script == [] then [] else script[1..]
    requires afterLog == (log + [plan[0]]) + plan[1..][..m]
    requires afterScript == Drop(rest, m)
    ensures afterLog == log + plan[..m + 1]
    ensures afterScript == Drop(script, m + 1)
  {
    assert plan[..m + 1] == [plan[0]] + plan[1..][..m];
    if script != [] && m + 1 < |script| {
      assert script[m + 1..] == rest[m..];
    }
  }

  /** The plan runs to its end exactly when no reaction met raises; otherwise it stops
      right at the first call whose reaction raises. */
  lemma {:induction false} RunPlanStops(b: BrowserState, plan: seq<Call>)
    ensures var r := RunPlan(b, plan);
      var n := |r.1.log| - |b.log|;
      && NoRaise(b.script, n - 1)
      && (r.0 <==> n == |plan| && NoRaise(b.script, n))
      && (!r.0 ==> 1 <= n <= |b.script| && b.script[n - 1].Raise?)
    decreases |plan|
  {
    if plan != [] {
      var (ok, next) := Perform(b, plan[0]);
      assert |next.log| == |b.log| + 1;
      assert next.script == if b.script == [] then [] else b.script[1..];
      if ok {
        assert b.script != [] ==> !b.script[0].Raise?;
        RunPlanStops(next, plan[1..]);
        RunPlanMakesPrefix(next, plan[1..]);
        var r := RunPlan(next, plan[1..]);
        assert RunPlan(b, plan) == r;
        var m := |r.1.log| - |next.log|;
        assert |r.1.log| - |b.log| == m + 1;
        StopsAfterFirst(b.script, next.script, r.0, m, |plan| - 1);
      } else {
        assert RunPlan(b, plan) == (false, next);
        assert b.script[0].Raise?;
        assert NoRaise(b.script, 0);
      }
    }
  }

  /** The stopping facts for the rest of a plan, run on the reactions left after a first
      call that did not raise, give those for the whole plan, one call further on. */
  lemma StopsAfterFirst(script: seq<Effect>, rest: seq<Effect>, ok: bool, m: int, len: int)
    requires script == [] ==> rest == []
    requires script != [] ==> !script[0].Raise? && rest == script[1..]
    requires NoRaise(rest, m - 1)
    requires ok <==> m == len && NoRaise(rest, m)
    requires !ok ==> 1 <= m <= |rest| && rest[m - 1].Raise?
    ensures NoRaise(script, m)
    ensures ok <==> m + 1 == len + 1 && NoRaise(script, m + 1)
    ensures !ok ==> 1 <= m + 1 <= |script| && script[m].Raise?
  {
    if script != [] {
      NoRaiseTail(script, m - 1);
      NoRaiseTail(script, m);
      if !ok {
        assert script[m] == rest[m - 1];
      }
    }
  }

  /** Past a first reaction that does not raise, the question moves to the rest. */
  lemma NoRaiseTail(script: seq<Effect>, n: int)
    requires script != [] && !script[0].Raise?
    ensures NoRaise(script, n + 1) == NoRaise(script[1..], n)
  {
    if NoRaise(script[1..], n) {
      forall k | 0 <= k < n + 1 && k < |script|
        ensures !script[k].Raise?
      {
        if k > 0 {
          assert script[k] == script[1..][k - 1];
        }
      }
    }
    if NoRaise(script, n + 1) {
      forall k | 0 <= k < n && k < |script[1..]|
        ensures !script[1..][k].Raise?
      {
        assert script[1..][k] == script[k + 1];
      }
    }
  }

  /** The calls a command makes on a browser value, stopping at the first that raises,
      and the outcome. */
  function Act(c: Command, b: BrowserState, resolve: (string, string) -> string): (Status, BrowserState) {
    match c
    case ClickOn(selector) => WaitAfter(Perform(b, Click(selector)))
    case FillIn(selector, value) =>
      var filled := Perform(b, Fill(selector, value));
      if !filled.0 then (Error, filled.1) else WaitAfter(Perform(filled.1, SubmitEnclosingForm(selector)))
    case FillWithoutValue => (Error, b)
    case NavigateTo(target) => WaitAfter(Perform(b, Goto(resolve(b.page.url, target))))
    case ScrollDown => WaitAfter(Perform(b, Evaluate(ScrollScript)))
    case Finish => (Done, b)
    case NoAction => WaitAfter((true, b))
  }

  /** After the command's own calls: "error" if one raised, otherwise the wait for the
      network to settle, which decides between "success" and "error". */
  function WaitAfter(r: (bool, BrowserState)): (Status, BrowserState) {
    if !r.0 then (Error, r.1)
    else
      var waited := Perform(r.1, WaitForLoadState(NetworkIdle));
      (if waited.0 then Success else Error, waited.1)
  }

  /** Python `execute_command` on a browser value: the outcome and the browser after it. */
  function Execute(text: string, b: BrowserState, resolve: (string, string) -> string): (Status, BrowserState) {
    Act(Interpret(text), b, resolve)
  }

  /** Acting on a command is running its plan: "done" and a fill without a value touch
      nothing; every other command succeeds exactly when all its calls are made and
      none raises. */
  lemma ActRunsPlan(c: Command, b: BrowserState, resolve: (string, string) -> string)
    ensures Act(c, b, resolve) ==
        if c.Finish? then (Done, b)
        else if c.FillWithoutValue? then (Error, b)
        else
          var (ok, after) := RunPlan(b, Plan(c, b.page.url, resolve));
          (if ok then Success else Error, after)
  {
    var plan := Plan(c, b.page.url, resolve);
    if |plan| >= 1 {
      var (ok, b1) := Perform(b, plan[0]);
      assert RunPlan(b, plan) == if !ok then (false, b1) else RunPlan(b1, plan[1..]);
      if |plan| >= 2 && ok {
        var (ok2, b2) := Perform(b1, plan[1]);
        assert RunPlan(b1, plan[1..]) == if !ok2 then (false, b2) else RunPlan(b2, plan[2..]);
        if |plan| == 3 && ok2 {
          var (ok3, b3) := Perform(b2, plan[2]);
          assert RunPlan(b2, plan[2..]) == if !ok3 then (false, b3) else RunPlan(b3, plan[3..]);
        }
      }
    }
  }

  /** The outcome of acting on any command, stated through the calls it makes and the
      reactions it meets: finishing yields Done with the browser untouched; a command
      matching no form still waits for the network to settle; success means the whole
      plan ran without a raise; any raise (or a fill without a value) yields Error. */
  lemma ActOutcome(c: Command, b: BrowserState, resolve: (string, string) -> string)
    ensures var (status, after) := Act(c, b, resolve);
      var plan := Plan(c, b.page.url, resolve);
      var n := |after.log| - |b.log|;
      && (status == Done <==> c.Finish?)
      && (status == Done ==> after == b)
      && 0 <= n <= |plan| && after.log == b.log + plan[..n]
      && (status == Success <==> !c.Finish? && plan != [] && n == |plan| && NoRaise(b.script, n))
      && (c.NoAction? ==> plan == [WaitForLoadState(NetworkIdle)])
  {
    ActRunsPlan(c, b, resolve);
    RunPlanMakesPrefix(b, Plan(c, b.page.url, resolve));
    RunPlanStops(b, Plan(c, b.page.url, resolve));
  }

  /** The outcome of executing any text: "done" alone yields Done, untouched browser
      included; text matching no form still waits for the network to settle and then
      succeeds unless that wait raises; success means the whole plan ran without a raise;
      any raise (or a fill without a value) yields Error. */
  lemma ExecuteOutcome(text: string, b: BrowserState, resolve: (string, string) -> string)
    ensures var (status, after) := Execute(text, b, resolve);
      var plan := Plan(Interpret(text), b.page.url, resolve);
      var n := |after.log| - |b.log|;
      && (status == Done <==> text == "done")
      && (status == Done ==> after == b)
      && 0 <= n <= |plan| && after.log == b.log + plan[..n]
      && (status == Success <==> text != "done" && plan != [] && n == |plan| && NoRaise(b.script, n))
      && (Interpret(text).NoAction? ==> plan == [WaitForLoadState(NetworkIdle)])
  {
    InterpretDispatch(text);
    ActOutcome(Interpret(text), b, resolve);
  }

  /** The live version: the same branches, calls and outcome on a session. */
  method ExecuteCommand(session: Session, command: string, resolve: (string, string) -> string)
    returns (result: Status)
    modifies session
    ensures (result, session.State()) == Execute(command, old(session.State()), resolve)
  {
    ghost var c := Interpret(command);
    InterpretDispatch(command);
    var ok: bool;
    if StartsWith(command, ClickPrefix) {
      SplitLeading(command, ClickPrefix);
      var selector := Strip(Split(command, ClickPrefix)[1]);
      assert c == ClickOn(selector);
      ok := session.Invoke(Click(selector));
      if !ok { return Error; }
    } else if StartsWith(command, FillPrefix) {
      SplitLeading(command, FillPrefix);
      var parts := Split(Split(command, FillPrefix)[1], ValueSeparator);
      var selector := Strip(parts[0]);
      assert c == FillCommand(Split(command, FillPrefix)[1]);
      if |parts| < 2 { return Error; }
      var value := Strip(parts[1]);
      assert c == FillIn(selector, value);
      ok := session.Invoke(Fill(selector, value));
      if !ok { return Error; }
      ok := session.Invoke(SubmitEnclosingForm(selector));
      if !ok { return Error; }
    } else if StartsWith(command, NavigatePrefix) {
      SplitLeading(command, NavigatePrefix);
      var url := Strip(Split(command, NavigatePrefix)[1]);
      assert c == NavigateTo(url);
      var absoluteUrl := resolve(session.page.url, url);
      ok := session.Invoke(Goto(absoluteUrl));
      if !ok { return Error; }
    } else if command == "scroll" {
      ok := session.Invoke(Evaluate(ScrollScript));
      if !ok { return Error; }
    } else if command == "done" {
      return Done;
    }
    ok := session.Invoke(WaitForLoadState(NetworkIdle));
    if !ok { return Error; }
    return Success;
  }
}
